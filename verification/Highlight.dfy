/** Search inside the message overlay (src/views/LogcatView.tsx, `highlightSearch` and
    `detailMatches`). Case folding keeps lengths, so offsets in the folded text are offsets in
    the text. */
module Highlight {
  import opened Text

  /** Plain text, or a marked occurrence and whether it is the active one. */
  datatype Piece = Plain(text: string) | Mark(text: string, current: bool)

  const TRAILER := "\n "

  ghost predicate NoneIn(hay: string, needle: string, from: nat, til: nat) {
    forall j :: from <= j < til ==> !OccursAt(hay, needle, j)
  }

  ghost predicate FirstFrom(hay: string, needle: string, from: nat, i: nat) {
    from <= i && OccursAt(hay, needle, i) && NoneIn(hay, needle, from, i)
  }

  /** `indexOf`, which answers -1 when there is none. */
  method Find(hay: string, needle: string, from: nat) returns (i: int)
    ensures i == -1 ==> NoneIn(hay, needle, from, |hay| + 1)
    ensures i != -1 ==> i >= 0 && FirstFrom(hay, needle, from, i)
  {
    var r := IndexOf(hay, needle, from);
    IndexOfMeaning(hay, needle, from);
    match r {
      case None => i := -1;
      case Some(at) => i := at;
    }
  }

  /** Where the search goes on after the first `k` matches. */
  function Resume(m: seq<nat>, len: nat, k: nat): nat
    requires k <= |m|
  {
    if k == 0 then 0 else m[k - 1] + len
  }

  /** Entry `k` is the first occurrence behind the one before it. */
  ghost predicate NextAt(hay: string, needle: string, m: seq<nat>, k: nat)
    requires k < |m|
  {
    FirstFrom(hay, needle, Resume(m, |needle|, k), m[k])
  }

  ghost predicate Greedy(hay: string, needle: string, m: seq<nat>) {
    forall k {:trigger NextAt(hay, needle, m, k)} :: 0 <= k < |m| ==> NextAt(hay, needle, m, k)
  }

  /** The offsets a search shows: greedy, and nothing is left behind the last one. */
  ghost predicate AreMatches(hay: string, needle: string, m: seq<nat>) {
    Greedy(hay, needle, m) && NoneIn(hay, needle, Resume(m, |needle|, |m|), |hay| + 1)
  }

  lemma GreedySnoc(hay: string, needle: string, m: seq<nat>, i: nat)
    requires Greedy(hay, needle, m) && FirstFrom(hay, needle, Resume(m, |needle|, |m|), i)
    ensures Greedy(hay, needle, m + [i])
    ensures Resume(m + [i], |needle|, |m| + 1) == i + |needle| <= |hay|
  {
    var all := m + [i];
    forall k {:trigger NextAt(hay, needle, all, k)} | 0 <= k < |all|
      ensures NextAt(hay, needle, all, k)
    {
      if k < |m| {
        assert NextAt(hay, needle, m, k);
        assert all[k] == m[k] && Resume(all, |needle|, k) == Resume(m, |needle|, k);
      } else {
        assert Resume(all, |needle|, k) == Resume(m, |needle|, k);
      }
    }
  }

  method MatchesFolded(hay: string, needle: string) returns (out: seq<nat>)
    requires needle != ""
    ensures AreMatches(hay, needle, out)
  {
    out := [];
    var i := Find(hay, needle, 0);
    while i != -1
      invariant i >= -1 && Greedy(hay, needle, out) && Resume(out, |needle|, |out|) <= |hay|
      invariant i == -1 ==> NoneIn(hay, needle, Resume(out, |needle|, |out|), |hay| + 1)
      invariant i != -1 ==> FirstFrom(hay, needle, Resume(out, |needle|, |out|), i)
      decreases |hay| - Resume(out, |needle|, |out|), i
    {
      GreedySnoc(hay, needle, out, i);
      out := out + [i];
      i := Find(hay, needle, i + |needle|);
    }
  }

  /** `detailMatches`: no offsets for an empty query. */
  method DetailMatches(lower: char -> char, text: string, query: string) returns (out: seq<nat>)
    ensures query == "" ==> out == []
    ensures query != "" ==> AreMatches(ToLower(lower, text), ToLower(lower, query), out)
  {
    if query == "" {
      return [];
    }
    out := MatchesFolded(ToLower(lower, text), ToLower(lower, query));
  }

  /** A search has one answer, so a marked text and `detailMatches` cannot disagree. */
  lemma {:induction false} MatchesDetermined(hay: string, needle: string, a: seq<nat>, b: seq<nat>)
    requires AreMatches(hay, needle, a) && AreMatches(hay, needle, b)
    ensures a == b
  {
    GreedyAgree(hay, needle, a, b, |a|);
    GreedyAgree(hay, needle, b, a, |b|);
  }

  lemma {:induction false} GreedyAgree(hay: string, needle: string, a: seq<nat>, b: seq<nat>, k: nat)
    requires AreMatches(hay, needle, a) && AreMatches(hay, needle, b) && k <= |a|
    ensures k <= |b| && a[..k] == b[..k]
  {
    if k > 0 {
      GreedyAgree(hay, needle, a, b, k - 1);
      var from := Resume(a, |needle|, k - 1);
      if k > 1 {
        assert a[k - 2] == a[..k - 1][k - 2] == b[..k - 1][k - 2] == b[k - 2];
      }
      assert from == Resume(b, |needle|, k - 1);
      assert NextAt(hay, needle, a, k - 1);
      if |b| >= k {
        assert NextAt(hay, needle, b, k - 1);
        assert a[..k] == a[..k - 1] + [a[k - 1]] && b[..k] == b[..k - 1] + [b[k - 1]];
      }
    }
  }

  /** The offsets are occurrences, do not overlap, and leave out an occurrence only where it
      overlaps one that is listed. */
  lemma MatchesMeaning(hay: string, needle: string, m: seq<nat>)
    requires AreMatches(hay, needle, m) && needle != ""
    ensures forall k :: 0 <= k < |m| ==> OccursAt(hay, needle, m[k])
    ensures forall j, k :: 0 <= j < k < |m| ==> m[j] + |needle| <= m[k]
    ensures forall i :: OccursAt(hay, needle, i) ==> exists k :: 0 <= k < |m| && m[k] <= i < m[k] + |needle|
  {
    forall k | 0 <= k < |m| ensures OccursAt(hay, needle, m[k]) {
      assert NextAt(hay, needle, m, k);
    }
    forall j: nat, k: nat | j < k < |m| ensures m[j] + |needle| <= m[k] {
      GreedyApart(hay, needle, m, j, k);
    }
    forall i: nat | OccursAt(hay, needle, i) ensures exists k :: 0 <= k < |m| && m[k] <= i < m[k] + |needle| {
      GreedyCovers(hay, needle, m, i, |m|);
    }
  }

  lemma {:induction false} GreedyApart(hay: string, needle: string, m: seq<nat>, j: nat, k: nat)
    requires Greedy(hay, needle, m) && j < k < |m|
    ensures m[j] + |needle| <= m[k]
  {
    assert NextAt(hay, needle, m, k);
    if j < k - 1 {
      GreedyApart(hay, needle, m, j, k - 1);
    }
  }

  lemma {:induction false} GreedyCovers(hay: string, needle: string, m: seq<nat>, i: nat, k: nat)
    requires Greedy(hay, needle, m) && OccursAt(hay, needle, i) && k <= |m|
    requires i < Resume(m, |needle|, k)
    ensures exists j :: 0 <= j < |m| && m[j] <= i < m[j] + |needle|
  {
    if i < m[k - 1] {
      assert NextAt(hay, needle, m, k - 1);
      GreedyCovers(hay, needle, m, i, k - 1);
    }
  }

  function AllText(pieces: seq<Piece>): string {
    if pieces == [] then "" else pieces[0].text + AllText(pieces[1..])
  }

  /** The marks of a list of pieces with the offset at which each one stands. */
  function Marks(pieces: seq<Piece>, at: nat): seq<(nat, Piece)> {
    if pieces == [] then []
    else (if pieces[0].Mark? then [(at, pieces[0])] else []) + Marks(pieces[1..], at + |pieces[0].text|)
  }

  lemma {:induction false} TextSnoc(pieces: seq<Piece>, p: Piece)
    ensures AllText(pieces + [p]) == AllText(pieces) + p.text
  {
    if pieces == [] {
      assert [p][1..] == [];
    } else {
      TextSnoc(pieces[1..], p);
      assert (pieces + [p])[1..] == pieces[1..] + [p];
      Assoc(pieces[0].text, AllText(pieces[1..]), p.text);
    }
  }

  lemma {:induction false} MarksSnoc(pieces: seq<Piece>, p: Piece, at: nat)
    ensures Marks(pieces + [p], at) == Marks(pieces, at) + (if p.Mark? then [(at + |AllText(pieces)|, p)] else [])
    decreases |pieces|
  {
    if pieces == [] {
      assert [p][1..] == [];
    } else {
      MarksSnoc(pieces[1..], p, at + |pieces[0].text|);
      assert (pieces + [p])[1..] == pieces[1..] + [p];
      Assoc(if pieces[0].Mark? then [(at, pieces[0])] else [], Marks(pieces[1..], at + |pieces[0].text|),
            if p.Mark? then [(at + |AllText(pieces)|, p)] else []);
    }
  }

  /** One mark as it has to be. */
  function MarkAt(src: string, len: nat, i: nat, current: bool): (nat, Piece)
    requires i + len <= |src|
  {
    (i, Mark(src[i..i + len], current))
  }

  /** One mark per match, in place; the active one is number `current`. */
  ghost predicate MarksAre(src: string, len: nat, marks: seq<(nat, Piece)>, matches: seq<nat>, current: int) {
    && |marks| == |matches|
    && forall k {:trigger matches[k]} :: 0 <= k < |matches| ==>
         matches[k] + len <= |src| && marks[k] == MarkAt(src, len, matches[k], k == current)
  }

  /** The pieces show the first `last` characters and mark `matches`. */
  ghost predicate Shows(src: string, len: nat, pieces: seq<Piece>, last: nat, matches: seq<nat>, current: int) {
    && last <= |src| && AllText(pieces) == src[..last]
    && MarksAre(src, len, Marks(pieces, 0), matches, current)
  }

  lemma ShowsPlain(src: string, len: nat, pieces: seq<Piece>, last: nat, til: nat, matches: seq<nat>, current: int)
    requires Shows(src, len, pieces, last, matches, current) && last <= til <= |src|
    ensures Shows(src, len, pieces + [Plain(src[last..til])], til, matches, current)
  {
    TextSnoc(pieces, Plain(src[last..til]));
    MarksSnoc(pieces, Plain(src[last..til]), 0);
    assert src[..last] + src[last..til] == src[..til];
  }

  lemma ShowsMark(src: string, len: nat, pieces: seq<Piece>, i: nat, matches: seq<nat>, current: int)
    requires Shows(src, len, pieces, i, matches, current) && i + len <= |src|
    ensures Shows(src, len, pieces + [Mark(src[i..i + len], |matches| == current)], i + len, matches + [i], current)
  {
    var mark := Mark(src[i..i + len], |matches| == current);
    TextSnoc(pieces, mark);
    MarksSnoc(pieces, mark, 0);
    assert src[..i] + src[i..i + len] == src[..i + len];
  }

  /** The source's loop over the folded text and query; `matches` is what it has found. */
  method HighlightFolded(src: string, hay: string, needle: string, current: int)
    returns (out: seq<Piece>, ghost matches: seq<nat>)
    requires needle != "" && |hay| == |src|
    ensures AreMatches(hay, needle, matches)
    ensures AllText(out) == src + TRAILER && MarksAre(src, |needle|, Marks(out, 0), matches, current)
  {
    out, matches := [], [];
    var last, n := 0, 0;
    var i := Find(hay, needle, 0);
    while i != -1
      invariant i >= -1 && n == |matches| && Greedy(hay, needle, matches) && last == Resume(matches, |needle|, |matches|)
      invariant i == -1 ==> NoneIn(hay, needle, last, |hay| + 1)
      invariant i != -1 ==> FirstFrom(hay, needle, last, i)
      invariant Shows(src, |needle|, out, last, matches, current)
      decreases |src| - last, i
    {
      GreedySnoc(hay, needle, matches, i);
      if i > last {
        ShowsPlain(src, |needle|, out, last, i, matches, current);
        out := out + [Plain(src[last..i])];
      }
      ShowsMark(src, |needle|, out, i, matches, current);
      out := out + [Mark(src[i..i + |needle|], n == current)];
      matches := matches + [i];
      last := i + |needle|;
      i := Find(hay, needle, last);
      n := n + 1;
    }
    if last < |src| {
      ShowsPlain(src, |needle|, out, last, |src|, matches, current);
      assert src[last..] == src[last..|src|];
      out := out + [Plain(src[last..])];
    }
    assert src[..|src|] == src;
    TextSnoc(out, Plain(TRAILER));
    MarksSnoc(out, Plain(TRAILER), 0);
    out := out + [Plain(TRAILER)];
  }

  /** The overlay shows the text itself, then the fixed trailer; its marks stand exactly at the
      offsets of a search, and the active one, if any, at number `current`. */
  method HighlightSearch(lower: char -> char, src: string, query: string, current: int)
    returns (out: seq<Piece>, ghost matches: seq<nat>)
    requires query != ""
    ensures AreMatches(ToLower(lower, src), ToLower(lower, query), matches)
    ensures AllText(out) == src + TRAILER && MarksAre(src, |query|, Marks(out, 0), matches, current)
  {
    out, matches := HighlightFolded(src, ToLower(lower, src), ToLower(lower, query), current);
  }

  /** With an empty query the search finds the place it started from, for ever: the loop would
      not advance. */
  lemma EmptyQueryStalls(hay: string, last: nat)
    requires last <= |hay|
    ensures FirstFrom(hay, "", last, last)
  {
    assert hay[last..last] == "";
  }
}
