/**
 * The PHP built-ins the helpers rely on, on strings of characters
 * (one character stands for one byte of the PHP string).
 */
module Php {
  import opened Wrappers

  /** Position of the first occurrence of `c` in `s`, if there is one. */
  function IndexOf(s: string, c: char): (r: Option<nat>)
    ensures r.None? <==> c !in s
    ensures r.Some? ==> r.value < |s| && s[r.value] == c && c !in s[..r.value]
  {
    if |s| == 0 then None
    else if s[0] == c then Some(0)
    else match IndexOf(s[1..], c)
      case None => None
      case Some(i) =>
        assert s[..i + 1] == [s[0]] + s[1..][..i];
        Some(i + 1)
  }

  /** `implode(sep, parts)`: the parts joined by the one-character separator. */
  function Implode(sep: char, parts: seq<string>): string
    decreases |parts|
  {
    if |parts| == 0 then ""
    else if |parts| == 1 then parts[0]
    else parts[0] + [sep] + Implode(sep, parts[1..])
  }

  /**
   * `explode(sep, s)` for a one-character separator: the maximal
   * separator-free pieces of `s`, in order. It never returns an empty
   * array; the empty string explodes to `[""]`.
   */
  function Explode(sep: char, s: string): (parts: seq<string>)
    ensures |parts| >= 1
    ensures forall i :: 0 <= i < |parts| ==> sep !in parts[i]
    ensures Implode(sep, parts) == s
    decreases |s|
  {
    match IndexOf(s, sep)
    case None => [s]
    case Some(i) =>
      var rest := Explode(sep, s[i + 1..]);
      assert s == s[..i] + [sep] + s[i + 1..];
      [s[..i]] + rest
  }

  /** Exploding a join of separator-free pieces gives the pieces back. */
  lemma {:induction false} ExplodeImplode(sep: char, parts: seq<string>)
    requires |parts| >= 1
    requires forall i :: 0 <= i < |parts| ==> sep !in parts[i]
    ensures Explode(sep, Implode(sep, parts)) == parts
    decreases |parts|
  {
    if |parts| > 1 {
      var s := Implode(sep, parts);
      var tail := Implode(sep, parts[1..]);
      assert s == parts[0] + [sep] + tail;
      IndexOfAfterFreePrefix(parts[0], sep, tail);
      assert s[|parts[0]| + 1..] == tail;
      assert s[..|parts[0]|] == parts[0];
      ExplodeImplode(sep, parts[1..]);
    }
  }

  lemma IndexOfAfterFreePrefix(p: string, c: char, tail: string)
    requires c !in p
    ensures IndexOf(p + [c] + tail, c) == Some(|p|)
  {
    var s := p + [c] + tail;
    assert s[|p|] == c;
    assert s[..|p|] == p;
  }

  /** `str_replace(c, '', s)` (and `preg_replace('/c/', '', s)`): every `c` deleted. */
  function RemoveAll(s: string, c: char): (r: string)
    ensures c !in r
    ensures forall x :: x != c ==> (x in r <==> x in s)
    ensures |r| + Count(s, c) == |s|
  {
    if |s| == 0 then ""
    else (if s[0] == c then "" else [s[0]]) + RemoveAll(s[1..], c)
  }

  /** Number of occurrences of `c` in `s`. */
  function Count(s: string, c: char): nat
  {
    if |s| == 0 then 0 else (if s[0] == c then 1 else 0) + Count(s[1..], c)
  }

  predicate IsUpper(c: char) {
    'A' <= c <= 'Z'
  }

  /** ASCII lower-casing of one character. */
  function LowerChar(c: char): (r: char)
    ensures !IsUpper(r)
    ensures IsUpper(c) ==> r as int == c as int + 32
    ensures !IsUpper(c) ==> r == c
  {
    if IsUpper(c) then (c as int + 32) as char else c
  }

  /** `strtolower(s)` with the locale-independent ASCII mapping. */
  function StrToLower(s: string): (r: string)
    ensures |r| == |s|
    ensures forall i :: 0 <= i < |s| ==> r[i] == LowerChar(s[i])
  {
    if |s| == 0 then "" else [LowerChar(s[0])] + StrToLower(s[1..])
  }

  /** `empty(s)` on a string: true for `""` and for `"0"`. */
  function IsEmpty(s: string): (empty: bool)
    ensures |s| == 0 ==> empty
    ensures |s| == 1 ==> (empty <==> s[0] == '0')
    ensures |s| >= 2 ==> !empty
  {
    s == "" || s == "0"
  }

  /**
   * The length of the longest key of `table` that is a non-empty prefix of
   * `s` and has at most `k` characters; 0 when there is none. Empty keys
   * are never matched.
   */
  function LongestKeyAt(s: string, table: map<string, string>, k: nat): (n: nat)
    requires k <= |s|
    ensures n <= k
    ensures n > 0 ==> s[..n] in table
    ensures forall m :: n < m <= k ==> s[..m] !in table
    decreases k
  {
    if k == 0 then 0
    else if s[..k] in table then k
    else LongestKeyAt(s, table, k - 1)
  }

  /**
   * `strtr(s, table)`: a single left-to-right pass that, at each position,
   * replaces the longest key found there and continues AFTER the
   * replaced key, so replacement text is never scanned again.
   */
  function Strtr(s: string, table: map<string, string>): (r: string)
    ensures SingleCharKeys(table) ==> r == Translate(s, table)
    decreases |s|
  {
    if |s| == 0 then ""
    else
      var n := LongestKeyAt(s, table, |s|);
      assert s[..1] == [s[0]];
      assert SingleCharKeys(table) && n > 0 ==> |s[..n]| == 1 && n == 1;
      if n == 0 then [s[0]] + Strtr(s[1..], table)
      else table[s[..n]] + Strtr(s[n..], table)
  }

  predicate SingleCharKeys(table: map<string, string>) {
    forall k :: k in table ==> |k| == 1
  }

  /** What one character becomes under a table of one-character keys. */
  function Image(table: map<string, string>, c: char): string {
    if [c] in table then table[[c]] else [c]
  }

  /** The per-character reading: the images of the characters, concatenated. */
  function Translate(s: string, table: map<string, string>): string
  {
    if |s| == 0 then "" else Image(table, s[0]) + Translate(s[1..], table)
  }

  /** The per-character translation distributes over concatenation. */
  lemma {:induction false} TranslateConcat(a: string, b: string, table: map<string, string>)
    ensures Translate(a + b, table) == Translate(a, table) + Translate(b, table)
    decreases |a|
  {
    if |a| > 0 {
      assert (a + b)[1..] == a[1..] + b;
      TranslateConcat(a[1..], b, table);
    } else {
      assert a + b == b;
    }
  }

  /** Every character of a piece occurs in the joined string. */
  lemma {:induction false} ImplodeContains(sep: char, parts: seq<string>, i: nat)
    requires i < |parts|
    ensures forall x :: x in parts[i] ==> x in Implode(sep, parts)
    decreases |parts|
  {
    if |parts| > 1 {
      var tail := Implode(sep, parts[1..]);
      assert Implode(sep, parts) == parts[0] + [sep] + tail;
      if i > 0 {
        ImplodeContains(sep, parts[1..], i - 1);
        assert parts[1..][i - 1] == parts[i];
      }
    }
  }

  lemma {:induction false} RemoveAllAbsent(s: string, c: char)
    requires c !in s
    ensures RemoveAll(s, c) == s
  {
    if |s| > 0 {
      assert s == [s[0]] + s[1..];
      RemoveAllAbsent(s[1..], c);
    }
  }

  lemma LowerKeepsLower(s: string)
    requires forall i :: 0 <= i < |s| ==> !IsUpper(s[i])
    ensures StrToLower(s) == s
  {
  }

  /** Deleting a character distributes over concatenation. */
  lemma {:induction false} RemoveAllConcat(a: string, b: string, c: char)
    ensures RemoveAll(a + b, c) == RemoveAll(a, c) + RemoveAll(b, c)
    decreases |a|
  {
    if |a| == 0 {
      assert a + b == b;
    } else {
      assert (a + b)[0] == a[0];
      assert (a + b)[1..] == a[1..] + b;
      RemoveAllConcat(a[1..], b, c);
    }
  }

  /** Every piece with `c` deleted. */
  function RemoveAllEach(parts: seq<string>, c: char): (r: seq<string>)
    ensures |r| == |parts|
    ensures forall i :: 0 <= i < |parts| ==> r[i] == RemoveAll(parts[i], c)
  {
    if |parts| == 0 then [] else [RemoveAll(parts[0], c)] + RemoveAllEach(parts[1..], c)
  }

  /**
   * Deleting a character other than the separator from a joined string is
   * joining the pieces with that character deleted.
   */
  lemma {:induction false} RemoveAllImplode(sep: char, parts: seq<string>, c: char)
    requires sep != c
    ensures RemoveAll(Implode(sep, parts), c) == Implode(sep, RemoveAllEach(parts, c))
    decreases |parts|
  {
    if |parts| >= 2 {
      var tail := Implode(sep, parts[1..]);
      var each := RemoveAllEach(parts, c);
      RemoveAllConcat(parts[0] + [sep], tail, c);
      RemoveAllConcat(parts[0], [sep], c);
      assert RemoveAll([sep], c) == [sep];
      RemoveAllImplode(sep, parts[1..], c);
      assert each[1..] == RemoveAllEach(parts[1..], c);
    }
  }

  /** Lower-casing distributes over concatenation. */
  lemma StrToLowerConcat(a: string, b: string)
    ensures StrToLower(a + b) == StrToLower(a) + StrToLower(b)
  {
    var l, r := StrToLower(a + b), StrToLower(a) + StrToLower(b);
    assert forall i :: 0 <= i < |l| ==> l[i] == r[i];
  }

  /**
   * Deleting a character that lower-casing neither produces nor changes
   * commutes with lower-casing.
   */
  lemma {:induction false} RemoveAllLower(s: string, c: char)
    requires !IsUpper(c) && !('a' <= c <= 'z')
    ensures RemoveAll(StrToLower(s), c) == StrToLower(RemoveAll(s, c))
    decreases |s|
  {
    if |s| > 0 {
      var lower := StrToLower(s);
      assert lower[0] == LowerChar(s[0]);
      assert lower[1..] == StrToLower(s[1..]);
      var head := if s[0] == c then "" else [s[0]];
      assert (LowerChar(s[0]) == c) == (s[0] == c);
      RemoveAllLower(s[1..], c);
      StrToLowerConcat(head, RemoveAll(s[1..], c));
    }
  }
}
