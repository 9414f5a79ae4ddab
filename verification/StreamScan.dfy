/** from: reading a stream until one of several patterns has passed. */
module StreamScan {
  type Chars = seq<int>

  // The first k characters of the pattern are the last k characters read.
  predicate Matched(pat: Chars, text: Chars, k: nat) {
    k <= |pat| && k <= |text| && pat[..k] == text[|text| - k..]
  }

  // k is the length of the longest prefix of the pattern that the text read ends with.
  ghost predicate Longest(pat: Chars, text: Chars, k: nat) {
    Matched(pat, text, k) && forall l: nat :: Matched(pat, text, l) ==> l <= k
  }

  // The pattern, which is not empty, has just been read completely.
  predicate Ends(pat: Chars, text: Chars) {
    pat != [] && Matched(pat, text, |pat|)
  }

  // One of the first n patterns ends here.
  ghost predicate SomeEnds(pats: seq<Chars>, text: Chars, n: nat) {
    exists i: nat :: i < n && i < |pats| && Ends(pats[i], text)
  }

  // No pattern ends before the position n of the text.
  ghost predicate NoneBefore(pats: seq<Chars>, text: Chars, n: nat) {
    forall q: nat :: q < n && q <= |text| ==> !SomeEnds(pats, text[..q], |pats|)
  }

  // ---------- prefixes ----------

  // A longer match of the text with one more character is a match of the text and that character.
  lemma {:induction false} MatchedMore(pat: Chars, text: Chars, ch: int, k: nat)
    requires 0 < k <= |pat|
    ensures Matched(pat, text + [ch], k) <==> Matched(pat, text, k - 1) && pat[k - 1] == ch
  {
    var more := text + [ch];
    if k <= |more| {
      assert more[|more| - k..] == text[|text| - (k - 1)..] + [ch];
      assert pat[..k] == pat[..k - 1] + [pat[k - 1]];
    }
  }

  // Below a match of length p, the matches are the prefixes that the first p characters also end with.
  lemma {:induction false} ShorterMatch(pat: Chars, text: Chars, p: nat, k: nat)
    requires Matched(pat, text, p) && k < p
    ensures Matched(pat, text, k) <==> pat[..k] == pat[p - k..p]
  {
    assert text[|text| - k..] == text[|text| - p..][p - k..];
    assert pat[p - k..p] == pat[..p][p - k..];
  }

  // What is left to try for the character ch: only matches of length p and shorter.
  ghost predicate Trying(pat: Chars, text: Chars, ch: int, p: nat) {
    p < |pat| && Matched(pat, text, p) && forall k: nat :: p < k < |pat| && Matched(pat, text, k) ==> pat[k] != ch
  }

  // The next shorter match to try is k.
  lemma {:induction false} TryShorter(pat: Chars, text: Chars, ch: int, p: nat, k: nat)
    requires Trying(pat, text, ch, p) && pat[p] != ch && k < p
    requires k == 0 || pat[..k] == pat[p - k..p]
    requires forall l: nat :: k < l < p ==> pat[..l] != pat[p - l..p]
    ensures Trying(pat, text, ch, k)
  {
    ShorterMatch(pat, text, p, k);
    assert k == 0 ==> pat[..0] == pat[p..p];
    forall l: nat | k < l < p ensures !Matched(pat, text, l) {
      ShorterMatch(pat, text, p, l);
    }
  }

  lemma {:induction false} Extended(pat: Chars, text: Chars, ch: int, p: nat)
    requires Trying(pat, text, ch, p) && pat[p] == ch
    ensures Longest(pat, text + [ch], p + 1)
  {
    MatchedMore(pat, text, ch, p + 1);
    forall l: nat | Matched(pat, text + [ch], l) ensures l <= p + 1 {
      if l > p + 1 {
        MatchedMore(pat, text, ch, l);
      }
    }
  }

  lemma {:induction false} NothingMatches(pat: Chars, text: Chars, ch: int)
    requires pat != [] ==> Trying(pat, text, ch, 0) && pat[0] != ch
    ensures Longest(pat, text + [ch], 0)
  {
    var more := text + [ch];
    assert pat[..0] == more[|more|..];
    forall l: nat | Matched(pat, more, l) ensures l <= 0 {
      if l > 0 {
        MatchedMore(pat, text, ch, l);
      }
    }
  }

  lemma {:induction false} StartTrying(pat: Chars, text: Chars, ch: int, p: nat)
    requires Longest(pat, text, p) && p < |pat|
    ensures Trying(pat, text, ch, p)
  {
  }

  // ---------- the stream ----------

  class Input {
    const text: Chars
    var next: nat
    var chr: int

    constructor (text: Chars)
      ensures this.text == text && next == 0 && chr == 0
    {
      this.text, next, chr := text, 0, 0;
    }

    ghost predicate Valid()
      reads this
    {
      next <= |text| && (forall i :: 0 <= i < |text| ==> text[i] >= 0) && -1 <= chr && (chr < 0 ==> next == |text|)
    }

    // What is still to be read, the character in chr included; chr 0 means that none has been fetched.
    function Rest(): Chars
      reads this
      requires next <= |text|
    {
      (if chr > 0 then [chr] else []) + text[next..]
    }

    method Get()
      requires Valid()
      modifies this
      ensures Valid() && (if old(next) < |text| then chr == text[old(next)] && next == old(next) + 1
                          else chr == -1 && next == old(next))
    {
      if next < |text| {
        chr, next := text[next], next + 1;
      } else {
        chr := -1;
      }
    }
  }

  // Where the reading of a text has got to: chr is the character after the first n ones.
  ghost predicate Before(s: Input, whole: Chars, n: nat)
    reads s
  {
    && s.Valid() && n <= |whole|
    && (if s.chr < 0 then n == |whole| else n < |whole| && s.chr == whole[n] && whole[n + 1..] == s.text[s.next..])
  }

  method NextChar(s: Input, ghost whole: Chars, ghost n: nat)
    requires Before(s, whole, n) && s.chr >= 0
    modifies s
    ensures Before(s, whole, n + 1)
  {
    ghost var rest := s.text[s.next..];
    if s.next < |s.text| {
      assert rest == [s.text[s.next]] + s.text[s.next + 1..];
      assert whole[n + 1] == whole[n + 1..][0];
      assert whole[n + 2..] == whole[n + 1..][1..];
    } else {
      assert |whole[n + 1..]| == 0;
    }
    s.Get();
  }

  // ---------- the scan ----------

  // The next shorter prefix that the first p characters also end with.
  method NextPrefix(pat: Chars, p0: nat) returns (p: nat)
    requires 0 < p0 <= |pat|
    ensures p < p0 && (p == 0 || pat[..p] == pat[p0 - p..p0])
    ensures forall l: nat :: p < l < p0 ==> pat[..l] != pat[p0 - l..p0]
  {
    p := p0 - 1;
    var j := 1;
    while p > 0 && pat[..p] != pat[j..j + p]
      invariant 0 <= p && j + p == p0 && j >= 1
      invariant forall l: nat :: p < l < p0 ==> pat[..l] != pat[p0 - l..p0]
    {
      p := p - 1;
      j := j + 1;
    }
  }

  // A pattern in memory is followed by 0.
  function CharAt(pat: Chars, k: nat): int {
    if k < |pat| then pat[k] else 0
  }

  // One character against one pattern, of which p0 characters had matched.
  method Advance(pat: Chars, ch: int, p0: nat, ghost text: Chars) returns (p: nat)
    requires Longest(pat, text, p0) && (if pat != [] then p0 < |pat| else p0 == 0 && ch != 0)
    ensures Longest(pat, text + [ch], p)
  {
    p := p0;
    if pat != [] {
      StartTrying(pat, text, ch, p);
    }
    hide Longest, Trying;
    while true
      invariant pat == [] ==> p == 0
      invariant pat != [] ==> p < |pat| && Trying(pat, text, ch, p)
      decreases p
    {
      if CharAt(pat, p) == ch {
        Extended(pat, text, ch, p);
        return p + 1;
      }
      if p == 0 {
        NothingMatches(pat, text, ch);
        return;
      }
      var q := NextPrefix(pat, p);
      TryShorter(pat, text, ch, p, q);
      p := q;
    }
  }

  // Every entry of p tells how far its pattern has matched the text.
  ghost predicate Tracking(pats: seq<Chars>, text: Chars, p: seq<nat>, from0: nat, to: nat) {
    |p| == |pats| && forall i :: from0 <= i < to && i < |pats| ==>
        Longest(pats[i], text, p[i]) && (if pats[i] != [] then p[i] < |pats[i]| else p[i] == 0)
  }

  lemma {:induction false} FullMatch(pat: Chars, text: Chars, p: nat)
    requires Longest(pat, text, p) && pat != []
    ensures p <= |pat| && (Ends(pat, text) <==> p == |pat|)
  {
    if Ends(pat, text) {
      assert Matched(pat, text, |pat|);
    }
  }

  // One character against all patterns; the first one that is complete is reported.
  method AdvanceAll(pats: seq<Chars>, ch: int, p: array<nat>, ghost text: Chars) returns (r: nat)
    requires p.Length == |pats| && Tracking(pats, text, p[..], 0, |pats|) && ([] in pats ==> ch != 0)
    modifies p
    ensures r <= |pats| && !SomeEnds(pats, text + [ch], r)
    ensures r < |pats| ==> Ends(pats[r], text + [ch])
    ensures r == |pats| ==> Tracking(pats, text + [ch], p[..], 0, |pats|)
  {
    r := 0;
    hide Longest, Ends;
    while r < |pats|
      invariant r <= |pats| && !SomeEnds(pats, text + [ch], r)
      invariant Tracking(pats, text + [ch], p[..], 0, r) && Tracking(pats, text, p[..], r, |pats|)
    {
      ghost var before := p[..];
      p[r] := Advance(pats[r], ch, p[r], text);
      assert p[..] == before[r := p[r]];
      if pats[r] != [] {
        FullMatch(pats[r], text + [ch], p[r]);
        if p[r] == |pats[r]| {
          return;
        }
      } else {
        NoEnd(pats[r], text + [ch], p[r]);
      }
      r := r + 1;
    }
  }

  lemma {:induction false} NoEnd(pat: Chars, text: Chars, p: nat)
    requires pat == [] && Longest(pat, text, p)
    ensures !Ends(pat, text) && p == 0
  {
  }

  // from: the index of the pattern, or the number of patterns if none occurs in the rest of the stream.
  method From(s: Input, pats: seq<Chars>) returns (r: nat, ghost n: nat)
    requires s.Valid() && ([] in pats ==> 0 !in s.text)
    modifies s
    ensures s.Valid()
    ensures pats == [] ==> r == 0 && s.chr == old(s.chr) && s.next == old(s.next)
    ensures pats != [] ==> Outcome(pats, old(s.Rest()), r, n)
    ensures pats != [] ==> Before(s, old(s.Rest()), if r < |pats| then n else |old(s.Rest())|)
  {
    n := 0;
    if pats == [] {
      return 0, 0;
    }
    ghost var whole := s.Rest();
    FirstChar(s);
    r, n := ScanAll(s, pats, whole);
  }

  // A character is fetched unless there is one.
  method FirstChar(s: Input)
    requires s.Valid()
    modifies s
    ensures Before(s, old(s.Rest()), 0)
  {
    if s.chr == 0 {
      s.Get();
    }
  }

  // The loop over the characters.
  method ScanAll(s: Input, pats: seq<Chars>, ghost whole: Chars) returns (r: nat, ghost n: nat)
    requires Before(s, whole, 0) && ([] in pats ==> 0 !in whole)
    modifies s
    ensures Outcome(pats, whole, r, n) && Before(s, whole, if r < |pats| then n else |whole|)
  {
    var p := new nat[|pats|](_ => 0);
    StartReading(whole, pats, p[..]);
    n := 0;
    hide Tracking, NoneBefore, SomeEnds, Ends;
    while s.chr >= 0
      invariant Before(s, whole, n) && NoneBefore(pats, whole, n + 1) && Tracking(pats, whole[..n], p[..], 0, |pats|)
      decreases |whole| - n
    {
      assert whole[..n] + [whole[n]] == whole[..n + 1];
      r := AdvanceAll(pats, s.chr, p, whole[..n]);
      NextChar(s, whole, n);
      n := n + 1;
      if r < |pats| {
        return;
      }
      NoneHere(pats, whole, n);
    }
    r := |pats|;
  }

  // The first pattern that ends at the earliest position where any does; or none occurs at all.
  ghost predicate Outcome(pats: seq<Chars>, whole: Chars, r: nat, n: nat) {
    if r < |pats| then
      n <= |whole| && Ends(pats[r], whole[..n]) && !SomeEnds(pats, whole[..n], r) && NoneBefore(pats, whole, n)
    else r == |pats| && NoneBefore(pats, whole, |whole| + 1)
  }

  lemma {:induction false} StartReading(whole: Chars, pats: seq<Chars>, p: seq<nat>)
    requires |p| == |pats| && forall i :: 0 <= i < |p| ==> p[i] == 0
    ensures Tracking(pats, whole[..0], p, 0, |pats|) && NoneBefore(pats, whole, 1)
  {
    assert whole[..0] == [];
  }

  lemma {:induction false} NoneHere(pats: seq<Chars>, whole: Chars, n: nat)
    requires NoneBefore(pats, whole, n) && n <= |whole| && !SomeEnds(pats, whole[..n], |pats|)
    ensures NoneBefore(pats, whole, n + 1)
  {
  }
}
