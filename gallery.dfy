/**
 * The pure logic of looknest/src/components/MasonryGrid.js: the search filter over the
 * fetched photos and the carousel's cyclic image index.
 */
module Gallery {
  import opened Wrappers
  import opened Subsequences

  datatype Uploader = Uploader(fullName: Option<string>, username: Option<string>)

  datatype Photo = Photo(title: string, description: string, imageUrl: seq<string>, user: Option<Uploader>)

  // ----- Text: case folding, substring search, trimming -----

  /** Case folding on ASCII letters; every other character is left as it is. */
  function LowerChar(c: char): char {
    if 'A' <= c <= 'Z' then (c as int + 32) as char else c
  }

  function Lower(s: string): (r: string)
    ensures |r| == |s|
    ensures forall i | 0 <= i < |s| :: r[i] == LowerChar(s[i])
  {
    if s == [] then [] else [LowerChar(s[0])] + Lower(s[1..])
  }

  predicate OccursAt(hay: string, needle: string, i: int) {
    0 <= i && i + |needle| <= |hay| && hay[i..i + |needle|] == needle
  }

  /** String.prototype.includes: needle occurs in hay at some offset. */
  predicate Contains(hay: string, needle: string) {
    exists i | 0 <= i <= |hay| - |needle| :: OccursAt(hay, needle, i)
  }

  /** A string that includes another is at least as long, and includes each of its pieces. */
  lemma IncludesPieces(hay: string, needle: string, j: int, k: int)
    requires Contains(hay, needle) && 0 <= j <= k <= |needle|
    ensures |needle| <= |hay| && Contains(hay, needle[j..k])
  {
    var i :| 0 <= i <= |hay| - |needle| && OccursAt(hay, needle, i);
    assert hay[i..i + |needle|] == needle;
    forall t | 0 <= t < k - j ensures hay[i + j..i + k][t] == needle[j..k][t] {
      assert hay[i + j + t] == hay[i..i + |needle|][j + t];
    }
    assert OccursAt(hay, needle[j..k], i + j);
  }

  /** The characters String.prototype.trim removes: white space and line terminators. */
  predicate IsWhitespace(c: char) {
    c == '\t' || c == '\n' || c == '\U{000B}' || c == '\U{000C}' || c == '\r' || c == ' '
    || c == '\U{00A0}' || c == '\U{1680}' || ('\U{2000}' <= c <= '\U{200A}')
    || c == '\U{2028}' || c == '\U{2029}' || c == '\U{202F}' || c == '\U{205F}'
    || c == '\U{3000}' || c == '\U{FEFF}'
  }

  function TrimStart(s: string): (r: string)
    ensures |r| <= |s| && r == s[|s| - |r|..]
    ensures forall i | 0 <= i < |s| - |r| :: IsWhitespace(s[i])
    ensures r == [] || !IsWhitespace(r[0])
  {
    if s != [] && IsWhitespace(s[0]) then TrimStart(s[1..]) else s
  }

  function TrimEnd(s: string): (r: string)
    ensures |r| <= |s| && r == s[..|r|]
    ensures forall i | |r| <= i < |s| :: IsWhitespace(s[i])
    ensures r == [] || !IsWhitespace(r[|r| - 1])
  {
    if s != [] && IsWhitespace(s[|s| - 1]) then TrimEnd(s[..|s| - 1]) else s
  }

  /** String.prototype.trim: white space cut off both ends. */
  function Trim(s: string): (r: string)
    ensures |r| <= |s|
    ensures r == [] || (!IsWhitespace(r[0]) && !IsWhitespace(r[|r| - 1]))
  {
    TrimEnd(TrimStart(s))
  }

  predicate Blank(s: string) {
    forall i | 0 <= i < |s| :: IsWhitespace(s[i])
  }

  /** What TrimStart cuts off is white space. */
  lemma TrimStartCutsBlank(s: string)
    ensures Blank(s[..|s| - |TrimStart(s)|])
  {
    var head := s[..|s| - |TrimStart(s)|];
    forall k | 0 <= k < |head| ensures IsWhitespace(head[k]) {
      assert head[k] == s[k];
    }
  }

  /** What TrimEnd cuts off is white space. */
  lemma TrimEndCutsBlank(t: string)
    ensures Blank(t[|TrimEnd(t)|..])
  {
    var tail := t[|TrimEnd(t)|..];
    forall k | 0 <= k < |tail| ensures IsWhitespace(tail[k]) {
      assert tail[k] == t[|TrimEnd(t)| + k];
    }
  }

  /** The trimmed query is the slice s[a..b], and what lies outside it is white space. */
  lemma TrimSlice(s: string) returns (a: nat, b: nat)
    ensures a <= b <= |s| && Trim(s) == s[a..b]
    ensures Blank(s[..a]) && Blank(s[b..])
  {
    var t := TrimStart(s);
    var u := TrimEnd(t);
    a, b := |s| - |t|, |s| - |t| + |u|;
    assert t == s[a..];
    assert u == t[..|u|] == s[a..b];
    TrimStartCutsBlank(s);
    TrimEndCutsBlank(t);
    assert t[|u|..] == s[b..];
  }

  /** A query trims to the empty string exactly when it is all white space. */
  lemma TrimEmptyIffBlank(s: string)
    ensures Trim(s) == "" <==> Blank(s)
  {
    var t := TrimStart(s);
    if Blank(s) {
      assert t == [];
    }
  }

  // ----- The search filter (lines 16-28) -----

  /** A JavaScript value used as a condition: a present, non-empty string. */
  predicate Truthy(s: Option<string>) {
    s.Some? && s.value != ""
  }

  /** The filter predicate: the lower-cased query occurs in one of the four fields. */
  predicate Matches(p: Photo, q: string) {
    var lq := Lower(q);
    || Contains(Lower(p.title), lq)
    || Contains(Lower(p.description), lq)
    || (p.user.Some? && Truthy(p.user.value.fullName) && Contains(Lower(p.user.value.fullName.value), lq))
    || (p.user.Some? && Truthy(p.user.value.username) && Contains(Lower(p.user.value.username.value), lq))
  }

  /** Array.prototype.filter with Matches. */
  function Filter(photos: seq<Photo>, q: string): (r: seq<Photo>)
    ensures forall p :: p in r <==> p in photos && Matches(p, q)
    ensures forall p :: multiset(r)[p] == if Matches(p, q) then multiset(photos)[p] else 0
    ensures |r| <= |photos|
  {
    if photos == [] then []
    else
      assert photos == [photos[0]] + photos[1..];
      (if Matches(photos[0], q) then [photos[0]] else []) + Filter(photos[1..], q)
  }

  /** The photos shown for a query. */
  function Search(all: seq<Photo>, q: string): (r: seq<Photo>)
    ensures |r| <= |all| && forall p | p in r :: p in all
    ensures Trim(q) != "" ==> forall p :: p in r <==> p in all && Matches(p, q)
  {
    if Trim(q) == "" then all else Filter(all, q)
  }

  /** The filtered list keeps the photos in their original order. */
  lemma {:induction false} FilterIsSubsequence(photos: seq<Photo>, q: string) returns (idx: seq<int>)
    ensures SubsequenceAt(Filter(photos, q), photos, idx)
  {
    if photos == [] {
      idx := [];
    } else {
      var rest := FilterIsSubsequence(photos[1..], q);
      var tail := Filter(photos[1..], q);
      var shifted := ShiftSubsequence(tail, photos, rest);
      if Matches(photos[0], q) {
        idx := [0] + shifted;
        assert Filter(photos, q) == [photos[0]] + tail;
      } else {
        idx := shifted;
        assert Filter(photos, q) == tail;
      }
    }
  }

  /** Filtering the filtered list again with the same query changes nothing. */
  lemma {:induction false} FilterIdempotent(photos: seq<Photo>, q: string)
    ensures Filter(Filter(photos, q), q) == Filter(photos, q)
  {
    if photos != [] {
      FilterIdempotent(photos[1..], q);
      var tail := Filter(photos[1..], q);
      if Matches(photos[0], q) {
        assert Filter(photos, q) == [photos[0]] + tail;
        assert ([photos[0]] + tail)[1..] == tail;
      } else {
        assert Filter(photos, q) == tail;
      }
    }
  }

  /** A blank query shows everything; otherwise a photo is shown iff it matches the untrimmed query. */
  lemma SearchSelects(all: seq<Photo>, q: string)
    ensures Blank(q) ==> Search(all, q) == all
    ensures !Blank(q) ==> forall p :: p in Search(all, q) <==> p in all && Matches(p, q)
  {
    TrimEmptyIffBlank(q);
  }

  /** The shown photos are an order-preserving subsequence of all photos, and searching again changes nothing. */
  lemma SearchSubsequenceIdempotent(all: seq<Photo>, q: string)
    ensures IsSubsequence(Search(all, q), all)
    ensures Search(Search(all, q), q) == Search(all, q)
  {
    if Trim(q) == "" {
      SubsequenceReflexive(all);
    } else {
      var idx := FilterIsSubsequence(all, q);
      FilterIdempotent(all, q);
    }
  }

  /** Only the lower-cased query matters: two queries that fold alike show the same photos. */
  lemma SearchIgnoresCase(all: seq<Photo>, q1: string, q2: string)
    requires Lower(q1) == Lower(q2)
    ensures Search(all, q1) == Search(all, q2)
  {
    TrimEmptyIffBlank(q1);
    TrimEmptyIffBlank(q2);
    LowerKeepsBlank(q1);
    LowerKeepsBlank(q2);
    if Trim(q1) != "" {
      FilterSameQuery(all, q1, q2);
    }
  }

  /** includes is transitive. */
  lemma IncludesTransitive(hay: string, mid: string, needle: string)
    requires Contains(hay, mid) && Contains(mid, needle)
    ensures Contains(hay, needle)
  {
    var i :| 0 <= i <= |mid| - |needle| && OccursAt(mid, needle, i);
    assert mid[i..i + |needle|] == needle;
    IncludesPieces(hay, mid, i, i + |needle|);
  }

  /** A photo matching a query also matches every query whose folded form it includes. */
  lemma MatchesNarrow(p: Photo, q1: string, q2: string)
    requires Contains(Lower(q2), Lower(q1)) && Matches(p, q2)
    ensures Matches(p, q1)
  {
    var l1, l2 := Lower(q1), Lower(q2);
    if Contains(Lower(p.title), l2) {
      IncludesTransitive(Lower(p.title), l2, l1);
    } else if Contains(Lower(p.description), l2) {
      IncludesTransitive(Lower(p.description), l2, l1);
    } else if p.user.Some? && Truthy(p.user.value.fullName) && Contains(Lower(p.user.value.fullName.value), l2) {
      IncludesTransitive(Lower(p.user.value.fullName.value), l2, l1);
    } else {
      IncludesTransitive(Lower(p.user.value.username.value), l2, l1);
    }
  }

  /** A string that includes a needle that is not blank is not blank either. */
  lemma IncludesNotBlank(hay: string, needle: string)
    requires Contains(hay, needle) && !Blank(needle)
    ensures !Blank(hay)
  {
    var k :| 0 <= k < |needle| && !IsWhitespace(needle[k]);
    var i :| 0 <= i <= |hay| - |needle| && OccursAt(hay, needle, i);
    assert hay[i + k] == hay[i..i + |needle|][k];
  }

  /** A query whose folded form includes a query that is not blank is not blank either. */
  lemma IncludedNotBlank(q1: string, q2: string)
    requires Contains(Lower(q2), Lower(q1)) && !Blank(q1)
    ensures !Blank(q2)
  {
    LowerKeepsBlank(q1);
    LowerKeepsBlank(q2);
    IncludesNotBlank(Lower(q2), Lower(q1));
  }

  /** Typing more narrows the results: a query whose folded form includes another's shows only photos the other shows. */
  lemma SearchNarrows(all: seq<Photo>, q1: string, q2: string)
    requires Contains(Lower(q2), Lower(q1))
    ensures forall p | p in Search(all, q2) :: p in Search(all, q1)
  {
    SearchSelects(all, q1);
    if !Blank(q1) {
      IncludedNotBlank(q1, q2);
      SearchSelects(all, q2);
      forall p | p in Search(all, q2) ensures p in Search(all, q1) {
        MatchesNarrow(p, q1, q2);
      }
    }
  }

  /** Case folding maps white space to white space and nothing else to it. */
  lemma LowerKeepsBlank(q: string)
    ensures Blank(Lower(q)) <==> Blank(q)
  {
    forall c: char ensures IsWhitespace(LowerChar(c)) <==> IsWhitespace(c) {
      if 'A' <= c <= 'Z' {
        assert 'a' <= LowerChar(c) <= 'z';
      }
    }
  }

  lemma {:induction false} FilterSameQuery(all: seq<Photo>, q1: string, q2: string)
    requires Lower(q1) == Lower(q2)
    ensures Filter(all, q1) == Filter(all, q2)
  {
    if all != [] {
      FilterSameQuery(all[1..], q1, q2);
    }
  }

  // ----- Carousel navigation (lines 123, 129) -----

  /** The "next" button: (prev + 1) % length. */
  function NextIndex(i: nat, n: nat): (r: nat)
    requires 0 < n
    ensures r < n
    ensures i < n ==> r == if i == n - 1 then 0 else i + 1
  {
    (i + 1) % n
  }

  /** The "previous" button: (prev - 1 + length) % length; the operand is never negative. */
  function PrevIndex(i: nat, n: nat): (r: nat)
    requires 0 < n
    ensures r < n
    ensures i < n ==> r == if i == 0 then n - 1 else i - 1
  {
    (i - 1 + n) % n
  }

  /** Previous undoes next and next undoes previous. */
  lemma NavigationInverse(i: nat, n: nat)
    requires i < n
    ensures PrevIndex(NextIndex(i, n), n) == i
    ensures NextIndex(PrevIndex(i, n), n) == i
  {
  }

  /** Pressing "next" k times. */
  function NextTimes(i: nat, n: nat, k: nat): (r: nat)
    requires 0 < n
  {
    if k == 0 then i else NextIndex(NextTimes(i, n, k - 1), n)
  }

  /** Pressing "next" k <= n times from i lands k places further on, wrapping past the end. */
  lemma {:induction false} NextTimesIsShift(i: nat, n: nat, k: nat)
    requires i < n && k <= n
    ensures NextTimes(i, n, k) == if i + k < n then i + k else i + k - n
  {
    if k > 0 {
      NextTimesIsShift(i, n, k - 1);
    }
  }

  /** n presses of "next" come back to the starting image. */
  lemma FullCycle(i: nat, n: nat)
    requires i < n
    ensures NextTimes(i, n, n) == i
  {
    NextTimesIsShift(i, n, n);
  }
}
