/**
 * The selection step of `match_designers`: with the campaign and the
 * designer rows in hand, normalise each row's three list fields in place,
 * score it, keep it when the score reaches the threshold, and sort what was
 * kept by score, highest first. Python's sort is stable, also with
 * `reverse=True`, so designers with equal scores stay in row order.
 * A campaign that does not exist is a not-found error (HTTP 404), which is
 * not the same as an empty result.
 */
module Selector {
  import opened Wrappers
  import opened ListCodec
  import opened Records
  import opened Scorer

  /** The body of a match request; `threshold` defaults to 60. */
  datatype MatchRequest = MatchRequest(campaignId: int, threshold: real)

  const DefaultThreshold: real := 60.0

  datatype MatchError = CampaignNotFound(campaignId: int)

  /** A designer as returned to the client, with its list fields as lists. */
  datatype DesignerOut = DesignerOut(
    id: int,
    name: string,
    rateTier: Option<real>,
    sceneTags: seq<string>,
    exportFormats: seq<string>,
    gameLogicExperience: Option<int>,
    visualMetadata: seq<string>,
    availability: Option<string>,
    performanceScore: real
  )

  datatype ScoredDesigner = ScoredDesigner(designer: DesignerOut, score: real)

  // ---------------------------------------------------------------------------
  // One row
  // ---------------------------------------------------------------------------

  predicate IsNormalised(d: Designer) {
    d.sceneTags.List? && d.exportFormats.List? && d.visualMetadata.List?
  }

  /** The row after its three list fields are overwritten with their normalised lists. */
  function Normalised(d: Designer): (n: Designer)
    ensures IsNormalised(n)
  {
    d.(sceneTags := List(DeserializeList(d.sceneTags)),
       exportFormats := List(DeserializeList(d.exportFormats)),
       visualMetadata := List(DeserializeList(d.visualMetadata)))
  }

  /** Normalising a row that is already normalised changes nothing. */
  lemma NormalisedIdempotent(d: Designer)
    ensures Normalised(Normalised(d)) == Normalised(d)
  {
  }

  /** Normalising before scoring does not change the score: the scorer normalises again. */
  lemma NormalisedKeepsScore(c: Campaign, d: Designer)
    ensures MatchScore(c, Normalised(d)) == MatchScore(c, d)
  {
    var n := Normalised(d);
    ScoreSeesNormalisedLists(c, d, n.sceneTags, n.exportFormats, n.visualMetadata);
  }

  /**
   * The response record: every field of the normalised row is copied, the
   * list fields as lists; a missing or zero performance score is reported as 0.0.
   */
  function Output(n: Designer): (o: DesignerOut)
    requires IsNormalised(n)
    ensures o.id == n.id && o.name == n.name && o.rateTier == n.rateTier
    ensures o.sceneTags == n.sceneTags.items && o.exportFormats == n.exportFormats.items
      && o.visualMetadata == n.visualMetadata.items
    ensures o.gameLogicExperience == n.gameLogicExperience && o.availability == n.availability
    ensures o.performanceScore == PerformanceBonus(n) / 5.0
  {
    DesignerOut(n.id, n.name, n.rateTier, n.sceneTags.items, n.exportFormats.items,
                n.gameLogicExperience, n.visualMetadata.items, n.availability,
                if HasPerformance(n) then n.performanceScore.value else 0.0)
  }

  /**
   * What the loop makes of one row: the normalised row's response record and
   * its score, which is the score of the row as stored.
   */
  function Entry(c: Campaign, d: Designer): (e: ScoredDesigner)
    ensures e.score == MatchScore(c, d)
    ensures e.designer.id == d.id
    ensures e.designer.sceneTags == DeserializeList(d.sceneTags)
      && e.designer.exportFormats == DeserializeList(d.exportFormats)
      && e.designer.visualMetadata == DeserializeList(d.visualMetadata)
  {
    var n := Normalised(d);
    NormalisedKeepsScore(c, d);
    ScoredDesigner(Output(n), MatchScore(c, n))
  }

  // ---------------------------------------------------------------------------
  // Filtering
  // ---------------------------------------------------------------------------

  /** The entries of the rows that reach the threshold, in row order. */
  function Kept(c: Campaign, rows: seq<Designer>, threshold: real): seq<ScoredDesigner> {
    if rows == [] then []
    else
      var e := Entry(c, rows[|rows| - 1]);
      Kept(c, rows[..|rows| - 1], threshold) + (if e.score >= threshold then [e] else [])
  }

  /** The loop's step: one more row appends its entry when it reaches the threshold. */
  lemma KeptOneMore(c: Campaign, rows: seq<Designer>, threshold: real, i: nat)
    requires i < |rows|
    ensures var e := Entry(c, rows[i]);
      Kept(c, rows[..i + 1], threshold) == Kept(c, rows[..i], threshold) + (if e.score >= threshold then [e] else [])
  {
    assert rows[..i + 1][..i] == rows[..i];
  }

  /** Only entries that reach the threshold are kept, and each comes from a row. */
  lemma {:induction false} KeptSound(c: Campaign, rows: seq<Designer>, threshold: real)
    ensures forall e :: e in Kept(c, rows, threshold) ==>
      e.score >= threshold && exists i :: 0 <= i < |rows| && e == Entry(c, rows[i])
  {
    if rows != [] {
      var init := rows[..|rows| - 1];
      KeptSound(c, init, threshold);
      forall e | e in Kept(c, rows, threshold)
        ensures e.score >= threshold && exists i :: 0 <= i < |rows| && e == Entry(c, rows[i])
      {
        if e in Kept(c, init, threshold) {
          var i :| 0 <= i < |init| && e == Entry(c, init[i]);
          assert rows[i] == init[i];
        } else {
          assert e == Entry(c, rows[|rows| - 1]);
        }
      }
    }
  }

  /** Every row whose score reaches the threshold is kept; the boundary is inclusive. */
  lemma {:induction false} KeptComplete(c: Campaign, rows: seq<Designer>, threshold: real, i: nat)
    requires i < |rows| && Entry(c, rows[i]).score >= threshold
    ensures Entry(c, rows[i]) in Kept(c, rows, threshold)
  {
    if i < |rows| - 1 {
      var init := rows[..|rows| - 1];
      assert init[i] == rows[i];
      KeptComplete(c, init, threshold, i);
    }
  }

  // ---------------------------------------------------------------------------
  // The stable descending sort
  // ---------------------------------------------------------------------------

  /** Highest score first. */
  predicate Descending(s: seq<ScoredDesigner>) {
    forall i, j :: 0 <= i < j < |s| ==> s[i].score >= s[j].score
  }

  /** The entries of `s` with score `v`, in the order of `s`. */
  function WithScore(s: seq<ScoredDesigner>, v: real): seq<ScoredDesigner> {
    if s == [] then []
    else WithScore(s[..|s| - 1], v) + (if s[|s| - 1].score == v then [s[|s| - 1]] else [])
  }

  /**
   * Inserts `x` into the descending `s` after every entry whose score is at
   * least `x`'s, so that `x` follows the equal entries already there.
   */
  function InsertByScore(s: seq<ScoredDesigner>, x: ScoredDesigner): seq<ScoredDesigner> {
    if s == [] then [x]
    else if s[|s| - 1].score < x.score then InsertByScore(s[..|s| - 1], x) + [s[|s| - 1]]
    else s + [x]
  }

  /** The stable sort by descending score, as insertion of each entry in turn. */
  function SortByScore(s: seq<ScoredDesigner>): seq<ScoredDesigner> {
    if s == [] then [] else InsertByScore(SortByScore(s[..|s| - 1]), s[|s| - 1])
  }

  /** Inserting adds `x` and loses nothing. */
  lemma {:induction false} InsertPermutes(s: seq<ScoredDesigner>, x: ScoredDesigner)
    ensures multiset(InsertByScore(s, x)) == multiset(s) + multiset{x}
  {
    if s != [] {
      assert s == s[..|s| - 1] + [s[|s| - 1]];
      if s[|s| - 1].score < x.score {
        InsertPermutes(s[..|s| - 1], x);
      }
    }
  }

  /** Sorting permutes. */
  lemma {:induction false} SortPermutes(s: seq<ScoredDesigner>)
    ensures multiset(SortByScore(s)) == multiset(s)
  {
    if s != [] {
      assert s == s[..|s| - 1] + [s[|s| - 1]];
      SortPermutes(s[..|s| - 1]);
      InsertPermutes(SortByScore(s[..|s| - 1]), s[|s| - 1]);
    }
  }

  lemma {:induction false} InsertKeepsDescending(s: seq<ScoredDesigner>, x: ScoredDesigner)
    requires Descending(s)
    ensures Descending(InsertByScore(s, x))
  {
    if s != [] && s[|s| - 1].score < x.score {
      var init, last := s[..|s| - 1], s[|s| - 1];
      InsertKeepsDescending(init, x);
      InsertPermutes(init, x);
      var t := InsertByScore(init, x);
      forall y | y in t ensures y.score >= last.score {
        assert y in multiset(t);
        if y != x {
          assert y in multiset(init);
          var k :| 0 <= k < |init| && init[k] == y;
          assert s[k] == y;
        }
      }
      forall i, j | 0 <= i < j < |t + [last]| ensures (t + [last])[i].score >= (t + [last])[j].score {
        if j == |t| {
          assert (t + [last])[i] == t[i];
          assert t[i] in t;
        }
      }
    }
  }

  lemma {:induction false} SortIsDescending(s: seq<ScoredDesigner>)
    ensures Descending(SortByScore(s))
  {
    if s != [] {
      SortIsDescending(s[..|s| - 1]);
      InsertKeepsDescending(SortByScore(s[..|s| - 1]), s[|s| - 1]);
    }
  }

  lemma {:induction false} WithScoreAppend(a: seq<ScoredDesigner>, b: seq<ScoredDesigner>, v: real)
    ensures WithScore(a + b, v) == WithScore(a, v) + WithScore(b, v)
  {
    if b == [] {
      assert a + b == a;
    } else {
      var bi := b[..|b| - 1];
      assert (a + b)[..|a + b| - 1] == a + bi;
      WithScoreAppend(a, bi, v);
    }
  }

  /** Inserting `x` puts it after the entries already there that have its score. */
  lemma {:induction false} InsertStable(s: seq<ScoredDesigner>, x: ScoredDesigner, v: real)
    ensures WithScore(InsertByScore(s, x), v) == WithScore(s, v) + (if x.score == v then [x] else [])
  {
    if s == [] {
      assert [x][..0] == [];
    } else if s[|s| - 1].score < x.score {
      var init, last := s[..|s| - 1], s[|s| - 1];
      InsertStable(init, x, v);
      WithScoreAppend(InsertByScore(init, x), [last], v);
      assert [last][..0] == [];
    } else {
      WithScoreAppend(s, [x], v);
      assert [x][..0] == [];
    }
  }

  /** The sort is stable: the entries with any one score keep their relative order. */
  lemma {:induction false} SortIsStable(s: seq<ScoredDesigner>, v: real)
    ensures WithScore(SortByScore(s), v) == WithScore(s, v)
  {
    if s != [] {
      var init := s[..|s| - 1];
      SortIsStable(init, v);
      InsertStable(SortByScore(init), s[|s| - 1], v);
    }
  }

  /** Sorting one more entry is inserting it into the sorted prefix. */
  lemma SortOneMore(s: seq<ScoredDesigner>, i: nat)
    requires i < |s|
    ensures SortByScore(s[..i + 1]) == InsertByScore(SortByScore(s[..i]), s[i])
  {
    assert s[..i + 1][..i] == s[..i];
  }

  /** The insertion point moves left past an entry with a lower score. */
  lemma InsertPassesLower(sorted: seq<ScoredDesigner>, x: ScoredDesigner, j: nat)
    requires 0 < j <= |sorted| && sorted[j - 1].score < x.score
    ensures InsertByScore(sorted[..j], x) + sorted[j..] == InsertByScore(sorted[..j - 1], x) + sorted[j - 1..]
  {
    assert sorted[..j][..j - 1] == sorted[..j - 1];
    assert [sorted[j - 1]] + sorted[j..] == sorted[j - 1..];
  }

  /** The insertion point is found: at the front, or behind an entry with at least `x`'s score. */
  lemma InsertStops(sorted: seq<ScoredDesigner>, x: ScoredDesigner, j: nat)
    requires j <= |sorted| && (j == 0 || sorted[j - 1].score >= x.score)
    ensures InsertByScore(sorted[..j], x) == sorted[..j] + [x]
  {
  }

  /** Copying the entry left of the gap into the gap moves the gap one place left. */
  lemma ShiftIntoGap(r: seq<ScoredDesigner>, sorted: seq<ScoredDesigner>, tail: seq<ScoredDesigner>, j: nat)
    requires 0 < j <= |sorted| && j < |r|
    requires r[..j] == sorted[..j] && r[j + 1..] == sorted[j..] + tail
    ensures r[j := r[j - 1]][..j - 1] == sorted[..j - 1]
    ensures r[j := r[j - 1]][j..] == sorted[j - 1..] + tail
  {
    var r' := r[j := r[j - 1]];
    assert r'[..j - 1] == r[..j - 1] == r[..j][..j - 1];
    assert r'[j..] == [r[j - 1]] + r[j + 1..];
    assert r[j - 1] == r[..j][j - 1] == sorted[j - 1];
    assert sorted[j - 1..] == [sorted[j - 1]] + sorted[j..];
  }

  /** Writing the entry into the gap. */
  lemma FillGap(r: seq<ScoredDesigner>, sorted: seq<ScoredDesigner>, tail: seq<ScoredDesigner>, j: nat, x: ScoredDesigner)
    requires j <= |sorted| && j < |r|
    requires r[..j] == sorted[..j] && r[j + 1..] == sorted[j..] + tail
    ensures r[j := x] == sorted[..j] + [x] + sorted[j..] + tail
  {
    var r' := r[j := x];
    assert r' == r'[..j] + [x] + r'[j + 1..];
  }

  /**
   * One pass of the insertion sort: the entry at `i` moves left past the
   * entries of the sorted prefix `r[..i]` that have a lower score.
   */
  method InsertPass(r0: seq<ScoredDesigner>, i: nat) returns (r: seq<ScoredDesigner>)
    requires i < |r0|
    ensures |r| == |r0|
    ensures r[..i + 1] == InsertByScore(r0[..i], r0[i])
    ensures r[i + 1..] == r0[i + 1..]
  {
    r := r0;
    ghost var sorted, tail := r0[..i], r0[i + 1..];
    var x := r[i];
    var j := i;
    while j > 0 && r[j - 1].score < x.score
      invariant 0 <= j <= i && |r| == |r0|
      invariant r[..j] == sorted[..j]
      invariant r[j + 1..] == sorted[j..] + tail
      invariant InsertByScore(sorted, x) == InsertByScore(sorted[..j], x) + sorted[j..]
    {
      assert r[j - 1] == r[..j][j - 1] == sorted[j - 1];
      InsertPassesLower(sorted, x, j);
      ShiftIntoGap(r, sorted, tail, j);
      r := r[j := r[j - 1]];
      j := j - 1;
    }
    assert j > 0 ==> r[j - 1] == r[..j][j - 1] == sorted[j - 1];
    InsertStops(sorted, x, j);
    FillGap(r, sorted, tail, j, x);
    r := r[j := x];
    ghost var done := sorted[..j] + [x] + sorted[j..];
    assert |done| == i + 1 && r == done + tail;
    assert r[..i + 1] == done && r[i + 1..] == tail;
  }

  /**
   * `list.sort(key=score, reverse=True)` on the kept entries: an insertion
   * sort, one pass per entry.
   */
  method SortByScoreDescending(s: seq<ScoredDesigner>) returns (r: seq<ScoredDesigner>)
    ensures r == SortByScore(s)
  {
    r := s;
    var i := 0;
    while i < |r|
      invariant |r| == |s| && 0 <= i <= |s|
      invariant r[..i] == SortByScore(s[..i])
      invariant r[i..] == s[i..]
    {
      assert r[i] == r[i..][0] == s[i];
      r := InsertPass(r, i);
      SortOneMore(s, i);
      assert r[i + 1..] == s[i..][1..];
      i := i + 1;
    }
    assert s[..|s|] == s && r[..|s|] == r;
  }

  // ---------------------------------------------------------------------------
  // The whole step
  // ---------------------------------------------------------------------------

  /** What `match_designers` answers, given the campaign lookup and the designer rows. */
  function MatchResult(request: MatchRequest, campaign: Option<Campaign>, rows: seq<Designer>)
    : Result<seq<ScoredDesigner>, MatchError>
  {
    if campaign.None? then Failure(CampaignNotFound(request.campaignId))
    else Success(SortByScore(Kept(campaign.value, rows, request.threshold)))
  }

  /**
   * The selection loop of `match_designers`: each row's list fields are
   * overwritten with their normalised lists, the row is scored and, if the
   * score reaches the threshold, its entry is appended; the kept entries are
   * then sorted. When the campaign is missing, nothing is read or changed.
   */
  method MatchDesigners(request: MatchRequest, campaign: Option<Campaign>, designers: array<Designer>)
    returns (result: Result<seq<ScoredDesigner>, MatchError>)
    modifies designers
    ensures result == MatchResult(request, campaign, old(designers[..]))
    ensures campaign.None? ==> designers[..] == old(designers[..])
    ensures campaign.Some? ==>
      forall k :: 0 <= k < designers.Length ==> designers[k] == Normalised(old(designers[k]))
  {
    if campaign.None? {
      return Failure(CampaignNotFound(request.campaignId));
    }
    var c := campaign.value;
    ghost var rows := designers[..];
    var scored: seq<ScoredDesigner> := [];
    for i := 0 to designers.Length
      invariant forall k :: 0 <= k < i ==> designers[k] == Normalised(rows[k])
      invariant forall k :: i <= k < designers.Length ==> designers[k] == rows[k]
      invariant scored == Kept(c, rows[..i], request.threshold)
    {
      var d := designers[i];
      designers[i] := d.(sceneTags := List(DeserializeList(d.sceneTags)));
      designers[i] := designers[i].(exportFormats := List(DeserializeList(designers[i].exportFormats)));
      designers[i] := designers[i].(visualMetadata := List(DeserializeList(designers[i].visualMetadata)));
      assert designers[i] == Normalised(rows[i]);
      var score := MatchScore(c, designers[i]);
      assert ScoredDesigner(Output(designers[i]), score) == Entry(c, rows[i]);
      if score >= request.threshold {
        scored := scored + [ScoredDesigner(Output(designers[i]), score)];
      }
      KeptOneMore(c, rows, request.threshold, i);
    }
    assert rows[..designers.Length] == rows;
    var sorted := SortByScoreDescending(scored);
    return Success(sorted);
  }

  // ---------------------------------------------------------------------------
  // What the answer promises
  // ---------------------------------------------------------------------------

  /** A missing campaign is an error; an existing one always gets a list, possibly empty. */
  lemma NotFoundIsNotEmpty(request: MatchRequest, c: Campaign, rows: seq<Designer>)
    ensures MatchResult(request, None, rows) == Failure(CampaignNotFound(request.campaignId))
    ensures MatchResult(request, Some(c), rows).Success?
    ensures MatchResult(request, Some(c), []) == Success([])
  {
  }

  /** When no designer reaches the threshold the answer is the empty list. */
  lemma {:induction false} NoneQualifyIsEmpty(request: MatchRequest, c: Campaign, rows: seq<Designer>)
    requires forall i :: 0 <= i < |rows| ==> MatchScore(c, rows[i]) < request.threshold
    ensures MatchResult(request, Some(c), rows) == Success([])
  {
    if Kept(c, rows, request.threshold) != [] {
      assert Kept(c, rows, request.threshold)[0] in Kept(c, rows, request.threshold);
      KeptSound(c, rows, request.threshold);
      assert false;
    }
  }

  /**
   * Selection is exact and the order is the sort's: the answer holds a
   * designer's entry exactly when its score reaches the threshold, every
   * entry's score is the designer's match score, scores never increase along
   * the answer, it is a permutation of the kept entries, and entries with
   * equal scores keep the order of the rows.
   */
  lemma MatchResultCorrect(request: MatchRequest, c: Campaign, rows: seq<Designer>)
    ensures var r := MatchResult(request, Some(c), rows).value;
      && (forall e :: e in r ==> (e.score >= request.threshold
            && exists i :: 0 <= i < |rows| && e == Entry(c, rows[i]) && e.score == MatchScore(c, rows[i])))
      && (forall i :: 0 <= i < |rows| && MatchScore(c, rows[i]) >= request.threshold ==> Entry(c, rows[i]) in r)
      && Descending(r)
      && multiset(r) == multiset(Kept(c, rows, request.threshold))
      && (forall v :: WithScore(r, v) == WithScore(Kept(c, rows, request.threshold), v))
  {
    var kept := Kept(c, rows, request.threshold);
    var r := SortByScore(kept);
    SortPermutes(kept);
    KeptSound(c, rows, request.threshold);
    forall e | e in r
      ensures e.score >= request.threshold
      ensures exists i :: 0 <= i < |rows| && e == Entry(c, rows[i]) && e.score == MatchScore(c, rows[i])
    {
      assert e in multiset(r);
      assert e in kept;
      var i :| 0 <= i < |rows| && e == Entry(c, rows[i]);
      NormalisedKeepsScore(c, rows[i]);
    }
    forall i | 0 <= i < |rows| && MatchScore(c, rows[i]) >= request.threshold
      ensures Entry(c, rows[i]) in r
    {
      NormalisedKeepsScore(c, rows[i]);
      KeptComplete(c, rows, request.threshold, i);
      assert Entry(c, rows[i]) in multiset(kept);
    }
    SortIsDescending(kept);
    forall v ensures WithScore(r, v) == WithScore(kept, v) {
      SortIsStable(kept, v);
    }
  }

  /**
   * A request that keeps the default threshold of 60: of two designers that
   * both reach it, the one with the higher score is listed first, whatever
   * the row order; the worked example (79 at rate 600, 99 at rate 400) is one
   * such pair.
   */
  lemma DefaultThresholdOrder(id: int, c: Campaign, d0: Designer, d1: Designer)
    requires DefaultThreshold <= MatchScore(c, d0) < MatchScore(c, d1)
    ensures MatchResult(MatchRequest(id, DefaultThreshold), Some(c), [d0, d1])
      == Success([Entry(c, d1), Entry(c, d0)])
  {
    var rows := [d0, d1];
    var e0, e1 := Entry(c, d0), Entry(c, d1);
    assert rows[..1] == [d0] && rows[..1][..0] == [];
    assert Kept(c, [], DefaultThreshold) == [];
    assert Kept(c, [d0], DefaultThreshold) == [e0];
    assert Kept(c, rows, DefaultThreshold) == Kept(c, [d0], DefaultThreshold) + [e1];
    assert [e0, e1][..1] == [e0] && [e0][..0] == [];
    assert SortByScore([e0]) == InsertByScore([], e0) == [e0];
    assert [e0][..0] == [];
    assert InsertByScore([e0], e1) == InsertByScore([], e1) + [e0] == [e1, e0];
    assert SortByScore([e0, e1]) == InsertByScore(SortByScore([e0]), e1);
  }
}
