/**
 * find_suggested_prompt: pick a saved extraction prompt for a document, first by an
 * exact client-name match, then by the best layout-similarity score the language
 * model gives, over a fixed acceptance threshold.
 *
 * The documents table is a sequence of rows; each SQL query becomes a function over
 * it. The model's verdict on the i-th candidate (counting from 0) is judge(i).
 */
module PromptSuggestion {
  import opened Wrappers
  import opened Json

  /** A row of the documents table: client_name, layout and user_prompt (NULL is None). */
  datatype Row = Row(client: Option<string>, layout: Value, prompt: Option<string>)

  /** A row of the second query, which only returns rows whose prompt is not NULL. */
  datatype Candidate = Candidate(client: Option<string>, layout: Value, prompt: string)

  /**
   * What comparing the current layout with a candidate's comes to: the candidate's
   * layout fails json.loads (no model call is made), the model call raises, the reply
   * holds no number, or the first number of the reply.
   */
  datatype Verdict = LayoutUnparseable | CallFailed | NoNumber | Scored(score: real)

  /** The lowest score at which a layout counts as similar. */
  const Threshold: real := 70.0

  /** The running best of the scan: best_prompt and best_similarity_score. */
  datatype Best = Best(prompt: Option<string>, score: real)

  /** The first query: client_name = current_client AND user_prompt IS NOT NULL. */
  predicate ExactMatchRow(row: Row, client: string)
  {
    row.client == Some(client) && row.prompt.Some?
  }

  /**
   * The prompt of the first row the first query returns (LIMIT 1 with no ORDER BY is
   * taken to return the first matching row in table order).
   */
  function ExactMatch(rows: seq<Row>, client: string): (r: Option<string>)
    ensures r.None? <==> forall i :: 0 <= i < |rows| ==> !ExactMatchRow(rows[i], client)
    ensures r.Some? ==> exists i :: 0 <= i < |rows| && ExactMatchRow(rows[i], client) && rows[i].prompt == r
  {
    if rows == [] then None
    else if ExactMatchRow(rows[0], client) then rows[0].prompt
    else
      var r := ExactMatch(rows[1..], client);
      assert r.Some? ==> exists i :: 0 <= i < |rows| && ExactMatchRow(rows[i], client) && rows[i].prompt == r by {
        if r.Some? {
          var i :| 0 <= i < |rows[1..]| && ExactMatchRow(rows[1..][i], client) && rows[1..][i].prompt == r;
          assert rows[i + 1] == rows[1..][i];
        }
      }
      r
  }

  function AsCandidate(row: Row): Candidate
    requires row.prompt.Some?
  {
    Candidate(row.client, row.layout, row.prompt.value)
  }

  /**
   * The positions of the rows whose prompt is not NULL, in increasing order: every
   * such row is listed, and no other.
   */
  function PromptedIndices(rows: seq<Row>): (r: seq<nat>)
    ensures |r| <= |rows|
    ensures forall k :: 0 <= k < |r| ==> r[k] < |rows| && rows[r[k]].prompt.Some?
    ensures forall k, l :: 0 <= k < l < |r| ==> r[k] < r[l]
  {
    if rows == [] then []
    else
      var n := |rows| - 1;
      var r := PromptedIndices(rows[..n]);
      assert forall j :: 0 <= j < n ==> rows[..n][j] == rows[j];
      if rows[n].prompt.Some? then r + [n] else r
  }

  /** PromptedIndices lists every row whose prompt is not NULL. */
  lemma {:induction false} PromptedIndicesComplete(rows: seq<Row>)
    ensures forall i :: 0 <= i < |rows| && rows[i].prompt.Some? ==> i in PromptedIndices(rows)
  {
    if rows != [] {
      var n := |rows| - 1;
      PromptedIndicesComplete(rows[..n]);
      assert forall j :: 0 <= j < n ==> rows[..n][j] == rows[j];
    }
  }

  /**
   * The second query: every row whose prompt is not NULL, in table order. The k-th
   * candidate is the row at the k-th prompted position.
   */
  function Candidates(rows: seq<Row>): (cs: seq<Candidate>)
    ensures |cs| == |PromptedIndices(rows)| <= |rows|
    ensures forall k :: 0 <= k < |cs| ==> cs[k] == AsCandidate(rows[PromptedIndices(rows)[k]])
    ensures cs == [] <==> forall i :: 0 <= i < |rows| ==> rows[i].prompt.None?
    ensures forall i :: 0 <= i < |rows| && rows[i].prompt.Some? ==> AsCandidate(rows[i]) in cs
    ensures forall c :: c in cs ==> Row(c.client, c.layout, Some(c.prompt)) in rows
  {
    if rows == [] then []
    else
      var n := |rows| - 1;
      var rest := Candidates(rows[..n]);
      var cs := if rows[n].prompt.Some? then rest + [AsCandidate(rows[n])] else rest;
      CandidatesStep(rows, rest, cs);
      PromptedIndicesComplete(rows);
      FilterFacts(rows, PromptedIndices(rows), cs);
      cs
  }

  /** Extending the candidates of all rows but the last by the last row, if it has a prompt. */
  lemma CandidatesStep(rows: seq<Row>, rest: seq<Candidate>, cs: seq<Candidate>)
    requires rows != []
    requires |rest| == |PromptedIndices(rows[..|rows| - 1])|
    requires forall k :: 0 <= k < |rest| ==>
      rest[k] == AsCandidate(rows[..|rows| - 1][PromptedIndices(rows[..|rows| - 1])[k]])
    requires cs == if rows[|rows| - 1].prompt.Some? then rest + [AsCandidate(rows[|rows| - 1])] else rest
    ensures |cs| == |PromptedIndices(rows)|
    ensures forall k :: 0 <= k < |cs| ==> cs[k] == AsCandidate(rows[PromptedIndices(rows)[k]])
  {
    var n := |rows| - 1;
    var idx, prev := PromptedIndices(rows), PromptedIndices(rows[..n]);
    assert idx == if rows[n].prompt.Some? then prev + [n] else prev;
    forall k | 0 <= k < |cs| ensures cs[k] == AsCandidate(rows[idx[k]]) {
      if k < |rest| {
        assert idx[k] == prev[k];
        assert rows[..n][prev[k]] == rows[prev[k]];
      }
    }
  }

  /** A sequence that lists the rows at all prompted positions holds every prompted row and no other. */
  lemma FilterFacts(rows: seq<Row>, idx: seq<nat>, cs: seq<Candidate>)
    requires forall k :: 0 <= k < |idx| ==> idx[k] < |rows| && rows[idx[k]].prompt.Some?
    requires forall i :: 0 <= i < |rows| && rows[i].prompt.Some? ==> i in idx
    requires |cs| == |idx|
    requires forall k :: 0 <= k < |cs| ==> cs[k] == AsCandidate(rows[idx[k]])
    ensures cs == [] <==> forall i :: 0 <= i < |rows| ==> rows[i].prompt.None?
    ensures forall i :: 0 <= i < |rows| && rows[i].prompt.Some? ==> AsCandidate(rows[i]) in cs
    ensures forall c :: c in cs ==> Row(c.client, c.layout, Some(c.prompt)) in rows
  {
    forall i | 0 <= i < |rows| && rows[i].prompt.Some? ensures AsCandidate(rows[i]) in cs {
      var k :| 0 <= k < |idx| && idx[k] == i;
      assert cs[k] == AsCandidate(rows[i]);
    }
    forall c | c in cs ensures Row(c.client, c.layout, Some(c.prompt)) in rows {
      var k :| 0 <= k < |cs| && cs[k] == c;
      assert rows[idx[k]] == Row(c.client, c.layout, Some(c.prompt));
    }
  }

  /** A verdict that could replace the running best: a score at or over the threshold. */
  predicate Accepted(v: Verdict)
  {
    v.Scored? && v.score >= Threshold
  }

  /** One pass of the loop body over the candidate c with verdict v. */
  function Step(b: Best, c: Candidate, v: Verdict): (r: Best)
    ensures r.score >= b.score
    ensures Accepted(v) && v.score > b.score ==> r == Best(Some(c.prompt), v.score)
    ensures !(Accepted(v) && v.score > b.score) ==> r == b
  {
    match v
    case Scored(s) => if s > b.score && s >= Threshold then Best(Some(c.prompt), s) else b
    case _ => b
  }

  /** The running best after the loop has seen all of cs, starting from (None, 0). */
  function Scan(cs: seq<Candidate>, judge: nat -> Verdict): (r: Best)
    ensures r.prompt.None? ==> r.score == 0.0
    ensures r.prompt.Some? ==> r.score >= Threshold
    ensures r.prompt.Some? ==>
      exists w :: 0 <= w < |cs| && cs[w].prompt == r.prompt.value && judge(w) == Scored(r.score)
  {
    if cs == [] then Best(None, 0.0)
    else
      var n := |cs| - 1;
      var b := Scan(cs[..n], judge);
      assert b.prompt.Some? ==>
        exists w :: 0 <= w < |cs| && cs[w].prompt == b.prompt.value && judge(w) == Scored(b.score) by {
        if b.prompt.Some? {
          var w :| 0 <= w < n && cs[..n][w].prompt == b.prompt.value && judge(w) == Scored(b.score);
          assert cs[..n][w] == cs[w];
        }
      }
      Step(b, cs[n], judge(n))
  }

  /** How many candidates of cs lead to a similarity call: all those whose layout parses. */
  function CountCalls(cs: seq<Candidate>, judge: nat -> Verdict): (n: nat)
    ensures n <= |cs|
  {
    if cs == [] then 0
    else CountCalls(cs[..|cs| - 1], judge) + (if judge(|cs| - 1) != LayoutUnparseable then 1 else 0)
  }

  /**
   * find_suggested_prompt's result: the exact match if there is one, None for an
   * empty candidate list, the error of json.loads(current_layout) if the current
   * layout does not parse, and otherwise the outcome of the similarity scan.
   */
  function Suggest(rows: seq<Row>, client: string, currentLayoutParses: bool, judge: nat -> Verdict): (r: Result<Option<string>>)
    ensures r.Err? <==>
      && (forall i :: 0 <= i < |rows| ==> !ExactMatchRow(rows[i], client))
      && (exists i :: 0 <= i < |rows| && rows[i].prompt.Some?)
      && !currentLayoutParses
    ensures r.Ok? && r.value.Some? ==> exists i :: 0 <= i < |rows| && rows[i].prompt == r.value
  {
    match ExactMatch(rows, client)
    case Some(p) => Ok(Some(p))
    case None =>
      var cs := Candidates(rows);
      if cs == [] then Ok(None)
      else if !currentLayoutParses then Err(JsonDecodeError("current layout is not valid JSON"))
      else
        ScanFromRows(rows, judge);
        Ok(Scan(cs, judge).prompt)
  }

  /** The prompt the scan settles on is the prompt of some row. */
  lemma ScanFromRows(rows: seq<Row>, judge: nat -> Verdict)
    ensures var b := Scan(Candidates(rows), judge);
      b.prompt.Some? ==> exists i :: 0 <= i < |rows| && rows[i].prompt == b.prompt
  {
    var cs := Candidates(rows);
    var b := Scan(cs, judge);
    if b.prompt.Some? {
      var w :| 0 <= w < |cs| && cs[w].prompt == b.prompt.value && judge(w) == Scored(b.score);
      assert cs[w] in cs;
      var i :| 0 <= i < |rows| && rows[i] == Row(cs[w].client, cs[w].layout, Some(cs[w].prompt));
    }
  }

  /**
   * The number of similarity calls find_suggested_prompt makes: none unless there is
   * no exact match and the current layout parses, and at most one per row.
   */
  function SimilarityCalls(rows: seq<Row>, client: string, currentLayoutParses: bool, judge: nat -> Verdict): (r: nat)
    ensures r <= |rows|
    ensures r > 0 ==> (forall i :: 0 <= i < |rows| ==> !ExactMatchRow(rows[i], client)) && currentLayoutParses
  {
    if ExactMatch(rows, client).Some? || Candidates(rows) == [] || !currentLayoutParses then 0
    else CountCalls(Candidates(rows), judge)
  }

  /** find_suggested_prompt(current_client, current_layout, cursor), with its similarity calls counted. */
  method FindSuggestedPrompt(rows: seq<Row>, currentClient: string, currentLayoutParses: bool, judge: nat -> Verdict)
    returns (r: Result<Option<string>>, calls: nat)
    ensures r == Suggest(rows, currentClient, currentLayoutParses, judge)
    ensures calls == SimilarityCalls(rows, currentClient, currentLayoutParses, judge)
  {
    var exact := ExactMatch(rows, currentClient);
    if exact.Some? {
      return Ok(exact), 0;
    }
    var candidates := Candidates(rows);
    if candidates == [] {
      return Ok(None), 0;
    }
    if !currentLayoutParses {
      return Err(JsonDecodeError("current layout is not valid JSON")), 0;
    }
    var bestPrompt: Option<string> := None;
    var bestScore: real := 0.0;
    calls := 0;
    var i := 0;
    while i < |candidates|
      invariant 0 <= i <= |candidates|
      invariant Best(bestPrompt, bestScore) == Scan(candidates[..i], judge)
      invariant calls == CountCalls(candidates[..i], judge)
    {
      ScanExtend(candidates, judge, i);
      ghost var before := Best(bestPrompt, bestScore);
      var verdict := judge(i);
      if verdict != LayoutUnparseable {
        calls := calls + 1;
      }
      match verdict {
        case Scored(s) =>
          if s > bestScore && s >= Threshold {
            bestScore := s;
            bestPrompt := Some(candidates[i].prompt);
          }
        case _ =>
      }
      assert Best(bestPrompt, bestScore) == Step(before, candidates[i], verdict);
      i := i + 1;
    }
    assert candidates[..i] == candidates;
    r := Ok(bestPrompt);
  }

  /** One more pass of the loop extends the scan and the call count by candidate i. */
  lemma ScanExtend(cs: seq<Candidate>, judge: nat -> Verdict, i: nat)
    requires i < |cs|
    ensures Scan(cs[..i + 1], judge) == Step(Scan(cs[..i], judge), cs[i], judge(i))
    ensures CountCalls(cs[..i + 1], judge)
         == CountCalls(cs[..i], judge) + (if judge(i) != LayoutUnparseable then 1 else 0)
  {
    assert cs[..i + 1][..i] == cs[..i];
  }

  /**
   * Candidate w is the one the scan should settle on: its score clears the threshold,
   * no accepted score beats it, and every earlier accepted score is strictly lower.
   */
  predicate IsWinner(cs: seq<Candidate>, judge: nat -> Verdict, w: int)
  {
    && 0 <= w < |cs|
    && Accepted(judge(w))
    && (forall j :: 0 <= j < |cs| && Accepted(judge(j)) ==> judge(j).score <= judge(w).score)
    && (forall j :: 0 <= j < w && Accepted(judge(j)) ==> judge(j).score < judge(w).score)
  }

  /**
   * The scan ends either with no prompt and score 0, when no verdict is accepted, or
   * with the prompt and score of the winner.
   */
  lemma {:induction false} ScanOutcome(cs: seq<Candidate>, judge: nat -> Verdict)
    ensures var b := Scan(cs, judge);
      || (b == Best(None, 0.0) && forall i :: 0 <= i < |cs| ==> !Accepted(judge(i)))
      || (exists w :: IsWinner(cs, judge, w) && b == Best(Some(cs[w].prompt), judge(w).score))
  {
    if cs != [] {
      var n := |cs| - 1;
      var prefix := cs[..n];
      ScanOutcome(prefix, judge);
      var b := Scan(prefix, judge);
      assert Scan(cs, judge) == Step(b, cs[n], judge(n));
      if b == Best(None, 0.0) && forall i :: 0 <= i < n ==> !Accepted(judge(i)) {
        if Accepted(judge(n)) {
          LastIsWinner(cs, judge);
        }
      } else {
        var w :| IsWinner(prefix, judge, w) && b == Best(Some(prefix[w].prompt), judge(w).score);
        assert prefix[w] == cs[w];
        if Accepted(judge(n)) && judge(n).score > b.score {
          LastIsWinner(cs, judge);
        } else {
          WinnerKept(cs, judge, w);
        }
      }
    }
  }

  /** A last candidate whose accepted score beats every earlier accepted one wins. */
  lemma LastIsWinner(cs: seq<Candidate>, judge: nat -> Verdict)
    requires cs != [] && Accepted(judge(|cs| - 1))
    requires forall j :: 0 <= j < |cs| - 1 && Accepted(judge(j)) ==> judge(j).score < judge(|cs| - 1).score
    ensures IsWinner(cs, judge, |cs| - 1)
  {
  }

  /** The winner of the prefix stays the winner when the last candidate does not beat it. */
  lemma WinnerKept(cs: seq<Candidate>, judge: nat -> Verdict, w: int)
    requires cs != [] && IsWinner(cs[..|cs| - 1], judge, w)
    requires Accepted(judge(|cs| - 1)) ==> judge(|cs| - 1).score <= judge(w).score
    ensures IsWinner(cs, judge, w)
  {
  }

  /** At most one candidate is the winner. */
  lemma WinnerUnique(cs: seq<Candidate>, judge: nat -> Verdict, w1: int, w2: int)
    requires IsWinner(cs, judge, w1) && IsWinner(cs, judge, w2)
    ensures w1 == w2
  {
  }

  /** The scan finds no prompt exactly when no candidate's score reaches the threshold. */
  lemma ScanNone(cs: seq<Candidate>, judge: nat -> Verdict)
    ensures Scan(cs, judge).prompt.None? <==> forall i :: 0 <= i < |cs| ==> !Accepted(judge(i))
  {
    ScanOutcome(cs, judge);
  }

  /**
   * Otherwise it returns the prompt of the earliest candidate with the highest
   * accepted score: a later candidate with an equal score does not displace it.
   */
  lemma ScanPicksWinner(cs: seq<Candidate>, judge: nat -> Verdict, w: int)
    requires IsWinner(cs, judge, w)
    ensures Scan(cs, judge) == Best(Some(cs[w].prompt), judge(w).score)
  {
    ScanOutcome(cs, judge);
    if w' :| IsWinner(cs, judge, w') && Scan(cs, judge) == Best(Some(cs[w'].prompt), judge(w').score) {
      WinnerUnique(cs, judge, w, w');
    }
  }

  /**
   * Only accepted verdicts matter: an unparseable layout, a failed call, a reply
   * without a number and a score under the threshold all leave the scan as it was.
   */
  lemma {:induction false} ScanIgnoresRejected(cs: seq<Candidate>, judge1: nat -> Verdict, judge2: nat -> Verdict)
    requires forall i :: 0 <= i < |cs| ==> (Accepted(judge1(i)) || Accepted(judge2(i))) ==> judge1(i) == judge2(i)
    ensures Scan(cs, judge1) == Scan(cs, judge2)
  {
    if cs != [] {
      var n := |cs| - 1;
      ScanIgnoresRejected(cs[..n], judge1, judge2);
    }
  }

  /**
   * A row with the current client and a saved prompt wins outright: its prompt (the
   * first such row's) is returned, no similarity call is made, and neither the
   * current layout nor any verdict matters.
   */
  lemma ExactMatchWins(rows: seq<Row>, client: string, parses1: bool, judge1: nat -> Verdict,
                       parses2: bool, judge2: nat -> Verdict, i: int)
    requires 0 <= i < |rows| && ExactMatchRow(rows[i], client)
    ensures Suggest(rows, client, parses1, judge1) == Ok(ExactMatch(rows, client))
    ensures Suggest(rows, client, parses1, judge1) == Suggest(rows, client, parses2, judge2)
    ensures SimilarityCalls(rows, client, parses1, judge1) == 0
  {
  }

  /** With no saved prompt in the table the answer is None, without any similarity call. */
  lemma NoPromptsNoSuggestion(rows: seq<Row>, client: string, parses: bool, judge: nat -> Verdict)
    requires forall i :: 0 <= i < |rows| ==> rows[i].prompt.None?
    ensures Suggest(rows, client, parses, judge) == Ok(None)
    ensures SimilarityCalls(rows, client, parses, judge) == 0
  {
  }

  /**
   * Without an exact match but with candidates, a current layout json.loads rejects is
   * an error that escapes (it is parsed outside the try).
   */
  lemma CurrentLayoutErrorEscapes(rows: seq<Row>, client: string, judge: nat -> Verdict, i: int)
    requires forall j :: 0 <= j < |rows| ==> !ExactMatchRow(rows[j], client)
    requires 0 <= i < |rows| && rows[i].prompt.Some?
    ensures Suggest(rows, client, false, judge).Err?
    ensures SimilarityCalls(rows, client, false, judge) == 0
  {
    assert AsCandidate(rows[i]) in Candidates(rows);
  }

  /**
   * Without an exact match, the answer is None exactly when no candidate scores 70 or
   * more, and otherwise the winner's prompt; one call is made per candidate whose
   * layout parses.
   */
  lemma SimilarityMatch(rows: seq<Row>, client: string, judge: nat -> Verdict)
    requires forall j :: 0 <= j < |rows| ==> !ExactMatchRow(rows[j], client)
    ensures var cs := Candidates(rows);
      && (Suggest(rows, client, true, judge) == Ok(None) <==> forall i :: 0 <= i < |cs| ==> !Accepted(judge(i)))
      && (forall w :: IsWinner(cs, judge, w) ==> Suggest(rows, client, true, judge) == Ok(Some(cs[w].prompt)))
      && SimilarityCalls(rows, client, true, judge) == CountCalls(cs, judge)
  {
    var cs := Candidates(rows);
    ScanNone(cs, judge);
    forall w | IsWinner(cs, judge, w) ensures Suggest(rows, client, true, judge) == Ok(Some(cs[w].prompt)) {
      ScanPicksWinner(cs, judge, w);
    }
  }

  /**
   * The acceptance rule at its edges: 69 is rejected, 70 is accepted from the start,
   * and a second 70 does not displace the first.
   */
  lemma ThresholdEdges(c1: Candidate, c2: Candidate)
    ensures Step(Best(None, 0.0), c1, Scored(69.0)) == Best(None, 0.0)
    ensures Step(Best(None, 0.0), c1, Scored(70.0)) == Best(Some(c1.prompt), 70.0)
    ensures Step(Best(Some(c1.prompt), 70.0), c2, Scored(70.0)) == Best(Some(c1.prompt), 70.0)
    ensures Step(Best(Some(c1.prompt), 70.0), c2, Scored(71.0)) == Best(Some(c2.prompt), 71.0)
  {
  }
}
