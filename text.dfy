/**
 The few Python `str` and `list` operations the questionnaire logic relies on:
 `str.isspace`/`str.strip`, `str.lower`, the substring test `a in b`,
 `sep.join(xs)`, `s.split(d)` and `list.index`.
 */
module Text {
  import opened Wrappers

  // ---------------------------------------------------------------------------
  // Whitespace and strip()
  // ---------------------------------------------------------------------------

  /** The characters for which Python's `str.isspace()` holds. */
  predicate IsSpace(c: char) {
    c == ' ' || '\t' <= c <= '\r' || '\U{1C}' <= c <= '\U{1F}' || c == '\U{85}' || c == '\U{A0}'
    || c == '\U{1680}' || '\U{2000}' <= c <= '\U{200A}' || c == '\U{2028}' || c == '\U{2029}'
    || c == '\U{202F}' || c == '\U{205F}' || c == '\U{3000}'
  }

  ghost predicate AllSpace(s: string) {
    forall i :: 0 <= i < |s| ==> IsSpace(s[i])
  }

  /** Drops leading whitespace: the result is the longest suffix that does not start with a space. */
  function StripLeft(s: string): (r: string)
    ensures |r| <= |s| && r == s[|s| - |r|..]
    ensures AllSpace(s[..|s| - |r|])
    ensures |r| > 0 ==> !IsSpace(r[0])
  {
    if |s| > 0 && IsSpace(s[0]) then StripLeft(s[1..]) else s
  }

  /** Drops trailing whitespace: the result is the longest prefix that does not end with a space. */
  function StripRight(s: string): (r: string)
    ensures |r| <= |s| && r == s[..|r|]
    ensures AllSpace(s[|r|..])
    ensures |r| > 0 ==> !IsSpace(r[|r| - 1])
  {
    if |s| > 0 && IsSpace(s[|s| - 1]) then StripRight(s[..|s| - 1]) else s
  }

  /** Python's `s.strip()` with no argument. */
  function Strip(s: string): string {
    StripRight(StripLeft(s))
  }

  /** `s.strip()` is empty exactly when every character of `s` is whitespace. */
  lemma StripEmptyIff(s: string)
    ensures Strip(s) == "" <==> AllSpace(s)
  {
    var l := StripLeft(s);
    if Strip(s) == "" {
      assert l[0..] == l;
      assert |l| == 0;
      assert s[..|s|] == s;
    } else {
      var r := Strip(s);
      assert r[0] == l[0];
    }
  }

  // ---------------------------------------------------------------------------
  // lower()
  // ---------------------------------------------------------------------------

  /** An upper-case letter of Basic Latin or Latin-1 (A-Z, À-Þ except the multiplication sign). */
  predicate IsUpper(c: char) {
    'A' <= c <= 'Z' || ('\U{C0}' <= c <= '\U{DE}' && c != '\U{D7}')
  }

  /** Lower-cases one character: each letter of `IsUpper` has its lower-case form 32 code points on. */
  function LowerChar(c: char): (r: char)
    ensures !IsUpper(r)
    ensures !IsUpper(c) ==> r == c
  {
    if IsUpper(c) then (c as int + 32) as char else c
  }

  /** Lowering a string neither creates nor removes whitespace. */
  lemma LowerKeepsSpace(s: string)
    ensures AllSpace(Lower(s)) <==> AllSpace(s)
  {
    forall k | 0 <= k < |s| ensures IsSpace(Lower(s)[k]) <==> IsSpace(s[k]) {
      assert Lower(s)[k] == LowerChar(s[k]);
    }
  }

  /** `s.lower()`, restricted to the letters of `IsUpper`. */
  function Lower(s: string): string {
    seq(|s|, i requires 0 <= i < |s| => LowerChar(s[i]))
  }

  /** A string without upper-case letters. */
  predicate IsLowerCase(s: string) {
    forall i :: 0 <= i < |s| ==> !IsUpper(s[i])
  }

  /** `lower()` keeps the length, yields a lower-case string and fixes every lower-case string. */
  lemma LowerFacts(s: string)
    ensures |Lower(s)| == |s|
    ensures IsLowerCase(Lower(s))
    ensures IsLowerCase(s) ==> Lower(s) == s
  {
  }

  /** `lower()` is idempotent. */
  lemma LowerIdempotent(s: string)
    ensures Lower(Lower(s)) == Lower(s)
  {
    LowerFacts(s);
    LowerFacts(Lower(s));
  }

  /** A letter that `lower()` produces from some upper-case letter. */
  predicate IsLowerOfUpper(c: char) {
    'a' <= c <= 'z' || ('\U{E0}' <= c <= '\U{FE}' && c != '\U{F7}')
  }

  /**
   A character that is neither an upper-case letter nor the lowering of one, such as '.', occurs in
   `s.lower()` exactly where it occurs in `s`.
   */
  lemma LowerKeepsCaseless(s: string, c: char)
    requires !IsUpper(c) && !IsLowerOfUpper(c)
    ensures c in Lower(s) <==> c in s
    ensures forall k :: 0 <= k < |s| ==> (Lower(s)[k] == c <==> s[k] == c)
  {
    forall k | 0 <= k < |s| ensures Lower(s)[k] == c <==> s[k] == c {
      assert Lower(s)[k] == LowerChar(s[k]);
    }
    if c in s {
      var k :| 0 <= k < |s| && s[k] == c;
      assert Lower(s)[k] == c;
    }
    if c in Lower(s) {
      var k :| 0 <= k < |Lower(s)| && Lower(s)[k] == c;
      assert s[k] == c;
    }
  }

  // ---------------------------------------------------------------------------
  // Substring test: `needle in hay`
  // ---------------------------------------------------------------------------

  /** `needle` occurs in `hay` at some offset. */
  ghost predicate IsSubstring(needle: string, hay: string) {
    exists k :: OccursAt(needle, hay, k)
  }

  /** `needle` occurs in `hay` starting at offset `k`. */
  ghost predicate OccursAt(needle: string, hay: string, k: int) {
    0 <= k <= |hay| - |needle| && hay[k..k + |needle|] == needle
  }

  /** Python's `needle in hay` on two strings, scanning the offsets from the left. */
  function Contains(hay: string, needle: string): (b: bool)
    ensures b <==> IsSubstring(needle, hay)
  {
    if |needle| > |hay| then false
    else if hay[..|needle|] == needle then
      assert OccursAt(needle, hay, 0);
      true
    else
      var b := Contains(hay[1..], needle);
      if b then
        assert IsSubstring(needle, hay) by {
          var k :| OccursAt(needle, hay[1..], k);
          assert hay[k + 1..k + 1 + |needle|] == hay[1..][k..k + |needle|];
          assert OccursAt(needle, hay, k + 1);
        }
        true
      else
        assert !IsSubstring(needle, hay) by {
          forall k | 0 < k <= |hay| - |needle| ensures !OccursAt(needle, hay, k) {
            assert hay[1..][k - 1..k - 1 + |needle|] == hay[k..k + |needle|];
            assert !OccursAt(needle, hay[1..], k - 1);
          }
          assert !OccursAt(needle, hay, 0);
        }
        false
  }

  // ---------------------------------------------------------------------------
  // join() and split()
  // ---------------------------------------------------------------------------

  /** Python's `sep.join(xs)`. */
  function Join(xs: seq<string>, sep: string): string {
    if |xs| == 0 then ""
    else if |xs| == 1 then xs[0]
    else xs[0] + sep + Join(xs[1..], sep)
  }

  /** Python's `s.split(d)` for a one-character separator: always at least one piece, none holding `d`. */
  function Split(s: string, d: char): (r: seq<string>)
    ensures |r| >= 1
    ensures forall i :: 0 <= i < |r| ==> d !in r[i]
  {
    if |s| == 0 then [""]
    else
      var rest := Split(s[1..], d);
      if s[0] == d then [""] + rest
      else [[s[0]] + rest[0]] + rest[1..]
  }

  /** A split gives a single piece exactly when the separator does not occur. */
  lemma {:induction false} SplitSingle(s: string, d: char)
    ensures |Split(s, d)| == 1 <==> d !in s
  {
    if |s| > 0 {
      SplitSingle(s[1..], d);
      assert d in s <==> s[0] == d || d in s[1..];
    }
  }

  /** Joining the pieces of a split with the same separator gives back the string. */
  lemma {:induction false} JoinSplit(s: string, d: char)
    ensures Join(Split(s, d), [d]) == s
  {
    if |s| > 0 {
      var rest := Split(s[1..], d);
      JoinSplit(s[1..], d);
      if s[0] == d {
        assert Split(s, d) == [""] + rest;
        assert ([""] + rest)[1..] == rest;
      } else {
        var r := Split(s, d);
        assert r == [[s[0]] + rest[0]] + rest[1..];
        if |rest| > 1 {
          assert r[1..] == rest[1..];
          assert Join(rest, [d]) == rest[0] + [d] + Join(rest[1..], [d]);
        }
      }
    }
  }

  /** Splitting `x + rest` where `x` holds no separator glues `x` onto the first piece of `rest`. */
  lemma {:induction false} SplitPrefix(x: string, rest: string, d: char)
    requires d !in x
    ensures Split(x + rest, d) == [x + Split(rest, d)[0]] + Split(rest, d)[1..]
  {
    if |x| > 0 {
      SplitPrefix(x[1..], rest, d);
      assert (x + rest)[1..] == x[1..] + rest;
      assert [x[0]] + (x[1..] + Split(rest, d)[0]) == x + Split(rest, d)[0];
    } else {
      var r := Split(rest, d);
      assert x + rest == rest;
      assert x + r[0] == r[0];
      assert [r[0]] + r[1..] == r;
    }
  }

  /**
   Splitting a join on the first character `d` of the separator `[d] + t` (where neither the pieces
   nor `t` hold `d`) gives the first piece and then every later piece with `t` in front of it.
   With `t == ""` this is the round trip `Split(Join(xs, [d]), d) == xs`.
   */
  lemma {:induction false} SplitJoin(xs: seq<string>, d: char, t: string)
    requires |xs| >= 1
    requires forall i :: 0 <= i < |xs| ==> d !in xs[i]
    requires d !in t
    ensures |Split(Join(xs, [d] + t), d)| == |xs|
    ensures Split(Join(xs, [d] + t), d)[0] == xs[0]
    ensures forall i :: 1 <= i < |xs| ==> Split(Join(xs, [d] + t), d)[i] == t + xs[i]
  {
    var sep := [d] + t;
    if |xs| == 1 {
      SplitPrefix(xs[0], "", d);
      assert xs[0] + "" == xs[0];
    } else {
      var j := Join(xs[1..], sep);
      SplitJoin(xs[1..], d, t);
      var sj := Split(j, d);
      assert xs[0] + sep + j == xs[0] + [d] + t + j;
      SplitAfterSeparator(xs[0], t, j, d);
      var all := Split(Join(xs, sep), d);
      assert all == [xs[0]] + [t + sj[0]] + sj[1..];
      forall i | 2 <= i < |xs| ensures all[i] == t + xs[i] {
        assert all[i] == sj[i - 1];
        assert xs[1..][i - 1] == xs[i];
      }
    }
  }

  /** Splitting `x + [d] + t + j` (no `d` in `x` or `t`) gives `x`, then `t` glued onto the pieces of `j`. */
  lemma SplitAfterSeparator(x: string, t: string, j: string, d: char)
    requires d !in x && d !in t
    ensures Split(x + [d] + t + j, d) == [x] + [t + Split(j, d)[0]] + Split(j, d)[1..]
  {
    var rest := [d] + (t + j);
    assert x + [d] + t + j == x + rest;
    SplitPrefix(x, rest, d);
    SplitPrefix(t, j, d);
    assert rest[1..] == t + j;
    assert Split(rest, d) == [""] + Split(t + j, d);
    assert x + "" == x;
  }

  /** Drops one leading blank. */
  function DropBlank(p: string): string {
    if |p| > 0 && p[0] == ' ' then p[1..] else p
  }

  /** Reads a list written with the separator ", " back into its items. */
  function ReadCommaList(s: string): seq<string> {
    var parts := Split(s, ',');
    seq(|parts|, j requires 0 <= j < |parts| => if j == 0 then parts[0] else DropBlank(parts[j]))
  }

  /** `", ".join(xs)` of a non-empty list of comma-free items reads back as `xs`. */
  lemma ReadCommaListJoin(xs: seq<string>)
    requires |xs| > 0 && forall j :: 0 <= j < |xs| ==> ',' !in xs[j]
    ensures ReadCommaList(Join(xs, ", ")) == xs
  {
    assert [','] + " " == ", ";
    SplitJoin(xs, ',', " ");
    ReadCommaListOf(Join(xs, ", "), xs);
  }

  /** The items read back are the pieces of the split, each but the first without its leading blank. */
  lemma ReadCommaListPieces(s: string)
    ensures |ReadCommaList(s)| == |Split(s, ',')|
    ensures ReadCommaList(s)[0] == Split(s, ',')[0]
    ensures forall j :: 1 <= j < |Split(s, ',')| ==> ReadCommaList(s)[j] == DropBlank(Split(s, ',')[j])
  {
  }

  /** A string whose pieces are the items, with a blank in front of all but the first, reads back as the items. */
  lemma ReadCommaListOf(s: string, xs: seq<string>)
    requires |Split(s, ',')| == |xs| > 0 && Split(s, ',')[0] == xs[0]
    requires forall j :: 1 <= j < |xs| ==> Split(s, ',')[j] == " " + xs[j]
    ensures ReadCommaList(s) == xs
  {
    ReadCommaListPieces(s);
    forall j | 1 <= j < |xs| ensures ReadCommaList(s)[j] == xs[j] {
      assert (" " + xs[j])[1..] == xs[j];
    }
  }

  /** Reads a ", "-separated list back out of `s`, skipping its first `skip` characters and its last one. */
  function ReadCommaListBetween(s: string, skip: nat): seq<string> {
    if |s| >= skip + 1 then ReadCommaList(s[skip..|s| - 1]) else []
  }

  /** A non-empty list of comma-free items written between `pre` and a final character reads back as the list. */
  lemma ReadCommaListBetweenJoin(pre: string, xs: seq<string>, post: char)
    requires |xs| > 0 && forall j :: 0 <= j < |xs| ==> ',' !in xs[j]
    ensures ReadCommaListBetween(pre + Join(xs, ", ") + [post], |pre|) == xs
  {
    var s := pre + Join(xs, ", ") + [post];
    assert s[|pre|..|s| - 1] == Join(xs, ", ");
    ReadCommaListJoin(xs);
  }

  // ---------------------------------------------------------------------------
  // list.index()
  // ---------------------------------------------------------------------------

  /** Python's `xs.index(x)`: the first position holding `x`, or `None` where Python raises ValueError. */
  function IndexOf<T(==)>(xs: seq<T>, x: T): (r: Option<nat>)
    ensures r.None? <==> x !in xs
    ensures r.Some? ==> r.value < |xs| && xs[r.value] == x && x !in xs[..r.value]
  {
    if |xs| == 0 then None
    else if xs[0] == x then Some(0)
    else match IndexOf(xs[1..], x)
      case None => None
      case Some(k) =>
        assert xs[..k + 1] == [xs[0]] + xs[1..][..k];
        Some(k + 1)
  }

  /** A subsequence: `a` is `b` with some elements left out, the rest kept in order. */
  ghost predicate IsSubsequence<T>(a: seq<T>, b: seq<T>)
    decreases |b|
  {
    if |a| == 0 then true
    else if |b| == 0 then false
    else if a[0] == b[0] then IsSubsequence(a[1..], b[1..])
    else IsSubsequence(a, b[1..])
  }
}
