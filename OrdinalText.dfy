/** The string operations of the .NET runtime that the schema, naming and parsing code
 *  relies on: `StringComparer.OrdinalIgnoreCase` (equality and hashing), `Trim`,
 *  `TrimStart`, `TrimEnd` of one character, and a case-insensitive `StartsWith`.
 *  Case is folded for the ASCII letters only. */
module OrdinalText {
  import opened Wrappers
  import opened Bytes

  /** The upper-case form an ordinal case-insensitive comparison looks at. */
  function UpperAscii(c: char): char
  {
    if 'a' <= c <= 'z' then (c as int - 32) as char else c
  }

  /** `ToLower` of one character. */
  function LowerAscii(c: char): char
  {
    if 'A' <= c <= 'Z' then (c as int + 32) as char else c
  }

  /** The string an ordinal case-insensitive comparison compares. */
  function Folded(s: string): (r: string)
    ensures |r| == |s| && forall i :: 0 <= i < |s| ==> r[i] == UpperAscii(s[i])
  {
    if s == [] then [] else [UpperAscii(s[0])] + Folded(s[1..])
  }

  /** `ToLower()` of a string. */
  function Lowered(s: string): (r: string)
    ensures |r| == |s| && forall i :: 0 <= i < |s| ==> r[i] == LowerAscii(s[i])
  {
    if s == [] then [] else [LowerAscii(s[0])] + Lowered(s[1..])
  }

  /** `StringComparer.OrdinalIgnoreCase.Equals` on two non-null strings. */
  predicate EqualsIgnoreCase(a: string, b: string)
  {
    Folded(a) == Folded(b)
  }

  /** The same on references: two nulls are equal, a null equals no string. */
  predicate NullableEqualsIgnoreCase(a: Option<string>, b: Option<string>)
  {
    if a.None? || b.None? then a == b else EqualsIgnoreCase(a.value, b.value)
  }

  /** Two strings are equal ignoring case exactly when they have the same length and
   *  agree character by character up to the case of ASCII letters. */
  lemma EqualsIgnoreCaseCharwise(a: string, b: string)
    ensures EqualsIgnoreCase(a, b) <==> |a| == |b| && forall i :: 0 <= i < |a| ==> UpperAscii(a[i]) == UpperAscii(b[i])
  {
    if |a| == |b| && forall i :: 0 <= i < |a| ==> UpperAscii(a[i]) == UpperAscii(b[i]) {
      assert forall i :: 0 <= i < |a| ==> Folded(a)[i] == Folded(b)[i];
    }
  }

  /** Strings of different lengths are never equal ignoring case. */
  lemma LengthsDiffer(a: string, b: string)
    requires |a| != |b|
    ensures !EqualsIgnoreCase(a, b)
  {
  }

  /** The comparer is an equivalence relation that contains ordinal equality. */
  lemma IgnoreCaseEquivalence(a: Option<string>, b: Option<string>, c: Option<string>)
    ensures a == b ==> NullableEqualsIgnoreCase(a, b)
    ensures NullableEqualsIgnoreCase(a, b) ==> NullableEqualsIgnoreCase(b, a)
    ensures NullableEqualsIgnoreCase(a, b) && NullableEqualsIgnoreCase(b, c) ==> NullableEqualsIgnoreCase(a, c)
  {
  }

  /** `StringComparer.OrdinalIgnoreCase.GetHashCode`: the runtime's hash of the folded
   *  string; `hash` belongs to the runtime. */
  function IgnoreCaseHash(s: string, hash: string -> int32): int32
  {
    hash(Folded(s))
  }

  /** Strings the comparer calls equal hash alike, whatever the runtime's hash. */
  lemma IgnoreCaseHashConsistent(a: string, b: string, hash: string -> int32)
    requires EqualsIgnoreCase(a, b)
    ensures IgnoreCaseHash(a, hash) == IgnoreCaseHash(b, hash)
  {
  }

  /** `s.StartsWith(prefix, StringComparison.OrdinalIgnoreCase)`. */
  predicate StartsWithIgnoreCase(s: string, prefix: string)
  {
    |prefix| <= |s| && EqualsIgnoreCase(s[..|prefix|], prefix)
  }

  /** `s.TrimStart(c)`: the suffix left after every leading `c`. */
  function TrimStart(s: string, c: char): (r: string)
    ensures |r| <= |s| && r == s[|s| - |r|..]
    ensures forall i :: 0 <= i < |s| - |r| ==> s[i] == c
    ensures |r| > 0 ==> r[0] != c
  {
    if s == [] || s[0] != c then s else TrimStart(s[1..], c)
  }

  /** `s.TrimEnd(c)`: the prefix left after every trailing `c`. */
  function TrimEnd(s: string, c: char): (r: string)
    ensures |r| <= |s| && r == s[..|r|]
    ensures forall i :: |r| <= i < |s| ==> s[i] == c
    ensures |r| > 0 ==> r[|r| - 1] != c
  {
    if s == [] || s[|s| - 1] != c then s else TrimEnd(s[..|s| - 1], c)
  }

  /** `s.Trim(c)`: both ends. */
  function Trim(s: string, c: char): (r: string)
    ensures |r| <= |s|
    ensures |r| > 0 ==> r[0] != c && r[|r| - 1] != c
    ensures r == [] <==> forall i :: 0 <= i < |s| ==> s[i] == c
  {
    var front := TrimStart(s, c);
    var r := TrimEnd(front, c);
    assert r == [] ==> front == [];
    r
  }

  /** A string whose ends are not `c` is its own trim. */
  lemma TrimUntouched(s: string, c: char)
    requires |s| > 0 ==> s[0] != c && s[|s| - 1] != c
    ensures TrimStart(s, c) == s && TrimEnd(s, c) == s && Trim(s, c) == s
  {
  }

  /** Trimming drops any leading run of `c` first. */
  lemma TrimLeading(s: string, c: char)
    requires |s| > 0 ==> s[|s| - 1] != c
    ensures Trim([c] + s, c) == TrimStart(s, c)
  {
    var t := [c] + s;
    assert t[0] == c && t[1..] == s;
    var front := TrimStart(s, c);
    assert TrimStart(t, c) == front;
    if |front| > 0 {
      assert front[|front| - 1] == s[|s| - 1];
    }
    TrimUntouched(front, c);
  }
}
