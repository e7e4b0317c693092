/** The two "rename selected objects" menu commands: every selected game object
    is renamed to a fixed prefix followed by its 1-based position in the selection. */
module RenameSelected {

  /** A game object: its name, and its active flag standing for the state the rename leaves alone. */
  class GameObject {
    var name: string
    var activeSelf: bool

    constructor (name: string, activeSelf: bool)
      ensures this.name == name && this.activeSelf == activeSelf
    {
      this.name := name;
      this.activeSelf := activeSelf;
    }
  }

  predicate IsDigit(c: char) {
    '0' <= c <= '9'
  }

  function DigitChar(d: nat): (c: char)
    requires d < 10
  {
    "0123456789"[d]
  }

  /** The decimal text of a non-negative number, as int.ToString() writes it. */
  function DecimalString(n: nat): (s: string)
    ensures |s| > 0
    ensures forall i :: 0 <= i < |s| ==> IsDigit(s[i])
    ensures n >= 10 ==> s[0] != '0'
  {
    if n < 10 then [DigitChar(n)] else DecimalString(n / 10) + [DigitChar(n % 10)]
  }

  /** The number a string of decimal digits stands for. */
  function DecimalValue(s: string): nat
    requires forall i :: 0 <= i < |s| ==> IsDigit(s[i])
  {
    if s == [] then 0
    else
      assert IsDigit(s[|s| - 1]);
      DecimalValue(s[..|s| - 1]) * 10 + (s[|s| - 1] as int - '0' as int)
  }

  /** Reading back the decimal text of a number gives the number. */
  lemma {:induction false} DecimalRoundTrip(n: nat)
    ensures DecimalValue(DecimalString(n)) == n
  {
    var s := DecimalString(n);
    if n >= 10 {
      DecimalRoundTrip(n / 10);
      assert s[..|s| - 1] == DecimalString(n / 10);
    }
  }

  /** The name given to the object at position i: the prefix and i + 1. */
  function Label(prefix: string, i: nat): string
  {
    prefix + DecimalString(i + 1)
  }

  /** Numbering is 1-based: the name is the prefix followed by the digits of i + 1. */
  lemma LabelNumber(prefix: string, i: nat)
    ensures Label(prefix, i)[..|prefix|] == prefix
    ensures var digits := Label(prefix, i)[|prefix|..];
      (forall k :: 0 <= k < |digits| ==> IsDigit(digits[k])) && DecimalValue(digits) == i + 1
  {
    assert Label(prefix, i)[|prefix|..] == DecimalString(i + 1);
    DecimalRoundTrip(i + 1);
  }

  /** Different positions get different names under the same prefix. */
  lemma LabelsDistinct(prefix: string, i: nat, j: nat)
    requires i != j
    ensures Label(prefix, i) != Label(prefix, j)
  {
    LabelNumber(prefix, i);
    LabelNumber(prefix, j);
  }

  /** The position of the first destroyed object in the selection, or its length
      when every entry is present. Renaming that entry throws, so the loop stops there. */
  function FirstMissing(objs: seq<GameObject?>): (n: nat)
    ensures n <= |objs|
    ensures forall i :: 0 <= i < n ==> objs[i] != null
    ensures n < |objs| ==> objs[n] == null
  {
    if objs == [] || objs[0] == null then 0 else 1 + FirstMissing(objs[1..])
  }

  /** The renaming loop shared by both commands. Objects before the first destroyed
      entry are renamed, an object listed twice keeping the name of its last such
      position; `completed` is false when a destroyed entry aborted the loop.
      The frame lets only `name` change, so every other object field is left alone. */
  method RenameWithPrefix(objs: array<GameObject?>, prefix: string) returns (completed: bool)
    modifies (set i | 0 <= i < objs.Length && objs[i] != null :: objs[i])`name
    ensures objs[..] == old(objs[..])
    ensures completed <==> FirstMissing(objs[..]) == objs.Length
    ensures var s, n := objs[..], FirstMissing(objs[..]);
      forall i :: 0 <= i < n && s[i] !in s[i + 1..n] ==> s[i].name == Label(prefix, i)
    ensures var s, n := objs[..], FirstMissing(objs[..]);
      forall i :: n <= i < |s| && s[i] != null && s[i] !in s[..n] ==> s[i].name == old(s[i].name)
  {
    ghost var s := objs[..];
    var i := 0;
    while i < objs.Length && objs[i] != null
      invariant 0 <= i <= objs.Length && objs[..] == s
      invariant forall k :: 0 <= k < i ==> s[k] != null
      invariant forall k :: 0 <= k < i && s[k] !in s[k + 1..i] ==> s[k].name == Label(prefix, k)
      invariant forall k :: i <= k < |s| && s[k] != null && s[k] !in s[..i] ==> s[k].name == old(s[k].name)
    {
      RenameStep(s, i);
      objs[i].name := Label(prefix, i);
      i := i + 1;
    }
    FirstMissingAt(s, i);
    completed := i == objs.Length;
  }

  /** The loop stops at the first destroyed entry, or at the end. */
  lemma FirstMissingAt(s: seq<GameObject?>, i: nat)
    requires i <= |s|
    requires forall k :: 0 <= k < i ==> s[k] != null
    requires i < |s| ==> s[i] == null
    ensures FirstMissing(s) == i
  {
  }

  /** Extending the renamed prefix by position i: an earlier position that is
      last within [0, i + 1) was last within [0, i) and differs from position i,
      and a later object outside [0, i + 1) is outside [0, i) and is not object i. */
  lemma RenameStep(s: seq<GameObject?>, i: nat)
    requires i < |s|
    ensures forall k :: 0 <= k < i && s[k] !in s[k + 1..i + 1] ==> s[k] !in s[k + 1..i] && s[k] != s[i]
    ensures forall k :: i < k < |s| && s[k] !in s[..i + 1] ==> s[k] !in s[..i] && s[k] != s[i]
    ensures s[i] !in s[i + 1..i + 1]
  {
    forall k | 0 <= k < i && s[k] !in s[k + 1..i + 1]
      ensures s[k] !in s[k + 1..i] && s[k] != s[i]
    {
      assert s[k + 1..i + 1] == s[k + 1..i] + [s[i]];
    }
    forall k | i < k < |s| && s[k] !in s[..i + 1]
      ensures s[k] !in s[..i] && s[k] != s[i]
    {
      assert s[..i + 1] == s[..i] + [s[i]];
    }
  }

  /** "Tools/Renombrar Pisos": names the selection Piso_1, Piso_2, ... */
  method RenameObjects(objs: array<GameObject?>) returns (completed: bool)
    modifies (set i | 0 <= i < objs.Length && objs[i] != null :: objs[i])`name
    ensures objs[..] == old(objs[..])
    ensures completed <==> FirstMissing(objs[..]) == objs.Length
    ensures var s, n := objs[..], FirstMissing(objs[..]);
      forall i :: 0 <= i < n && s[i] !in s[i + 1..n] ==> s[i].name == Label("Piso_", i)
    ensures var s, n := objs[..], FirstMissing(objs[..]);
      forall i :: n <= i < |s| && s[i] != null && s[i] !in s[..n] ==> s[i].name == old(s[i].name)
    ensures forall i :: 0 <= i < objs.Length && objs[i] != null ==> objs[i].activeSelf == old(objs[i].activeSelf)
  {
    completed := RenameWithPrefix(objs, "Piso_");
  }

  /** "Tools/Renombrar Madera": names the selection Madera_1, Madera_2, ... */
  method RenameObjectsMadera(objs: array<GameObject?>) returns (completed: bool)
    modifies (set i | 0 <= i < objs.Length && objs[i] != null :: objs[i])`name
    ensures objs[..] == old(objs[..])
    ensures completed <==> FirstMissing(objs[..]) == objs.Length
    ensures var s, n := objs[..], FirstMissing(objs[..]);
      forall i :: 0 <= i < n && s[i] !in s[i + 1..n] ==> s[i].name == Label("Madera_", i)
    ensures var s, n := objs[..], FirstMissing(objs[..]);
      forall i :: n <= i < |s| && s[i] != null && s[i] !in s[..n] ==> s[i].name == old(s[i].name)
    ensures forall i :: 0 <= i < objs.Length && objs[i] != null ==> objs[i].activeSelf == old(objs[i].activeSelf)
  {
    completed := RenameWithPrefix(objs, "Madera_");
  }
}
