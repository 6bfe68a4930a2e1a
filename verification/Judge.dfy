/** What goes to the judge and what comes back: contexts cut to a character budget, and the judge's
    positional results mapped onto one verdict per sample. */
module Judge {
  import opened Ids
  import opened Wrappers

  // ------------------------------------------------------------- the context

  function Concat(chunks: seq<string>): string
  {
    if chunks == [] then "" else Concat(chunks[..|chunks| - 1]) + chunks[|chunks| - 1]
  }

  lemma {:induction false} ConcatPrefix(chunks: seq<string>, i: nat)
    requires i <= |chunks|
    ensures Concat(chunks[..i]) <= Concat(chunks)
  {
    if i == |chunks| {
      assert chunks[..i] == chunks;
    } else {
      assert chunks[..|chunks| - 1][..i] == chunks[..i];
      ConcatPrefix(chunks[..|chunks| - 1], i);
    }
  }

  function Clip(n: int, most: nat): nat
  {
    if n < 0 then 0 else if n > most then most else n
  }

  /** Keep chunks until the budget is spent: what is kept is exactly the first `maxChars` characters of
      all the chunks together, and every chunk but the last kept one is whole. */
  method TruncateContexts(contexts: seq<string>, maxChars: int) returns (kept: seq<string>)
    ensures Concat(kept) == Concat(contexts)[..Clip(maxChars, |Concat(contexts)|)]
    ensures |kept| <= |contexts| && forall i :: 0 <= i < |kept| ==> kept[i] <= contexts[i]
    ensures forall i :: 0 <= i < |kept| - 1 ==> kept[i] == contexts[i]
    ensures |kept| < |contexts| ==> |Concat(contexts[..|kept|])| >= maxChars
  {
    var budget := maxChars;
    kept := [];
    var i := 0;
    while i < |contexts| && budget > 0
      invariant i <= |contexts| && budget == maxChars - |Concat(contexts[..i])|
      invariant CutSoFar(contexts, kept, i, maxChars) && (maxChars >= 0 || i == 0)
    {
      var chunk := contexts[i];
      CutOneMore(contexts, kept, i, maxChars);
      kept := kept + [chunk[..Clip(budget, |chunk|)]];
      budget := budget - |chunk|;
      i := i + 1;
    }
    CutEnd(contexts, kept, i, maxChars);
  }

  lemma {:induction false} CutEnd(contexts: seq<string>, kept: seq<string>, i: nat, maxChars: int)
    requires i <= |contexts| && CutSoFar(contexts, kept, i, maxChars) && (maxChars >= 0 || i == 0)
    requires i == |contexts| || |Concat(contexts[..i])| >= maxChars
    ensures Concat(kept) == Concat(contexts)[..Clip(maxChars, |Concat(contexts)|)]
  {
    ConcatPrefix(contexts, i);
    if i == |contexts| { assert contexts[..i] == contexts; }
  }

  /** After i chunks: whole ones while the budget lasts, and the characters they leave room for. */
  ghost predicate CutSoFar(contexts: seq<string>, kept: seq<string>, i: nat, maxChars: int)
    requires i <= |contexts|
  {
    && |kept| == i && (forall j :: 0 <= j < i ==> kept[j] <= contexts[j])
    && (forall j :: 0 <= j < i - 1 ==> kept[j] == contexts[j])
    && (|Concat(contexts[..i])| <= maxChars ==> kept == contexts[..i])
    && (0 <= maxChars < |Concat(contexts[..i])| ==> Concat(kept) == Concat(contexts[..i])[..maxChars])
  }

  lemma {:induction false} CutOneMore(contexts: seq<string>, kept: seq<string>, i: nat, maxChars: int)
    requires i < |contexts| && CutSoFar(contexts, kept, i, maxChars) && |Concat(contexts[..i])| < maxChars
    ensures var chunk := contexts[i];
            var budget := maxChars - |Concat(contexts[..i])|;
            && Concat(contexts[..i + 1]) == Concat(contexts[..i]) + chunk
            && CutSoFar(contexts, kept + [chunk[..Clip(budget, |chunk|)]], i + 1, maxChars)
  {
    var chunk, budget := contexts[i], maxChars - |Concat(contexts[..i])|;
    assert contexts[..i + 1][..i] == contexts[..i] && contexts[..i + 1] == contexts[..i] + [chunk];
    var part := chunk[..Clip(budget, |chunk|)];
    assert (kept + [part])[..i] == kept;
    assert Concat(kept + [part]) == Concat(kept) + part;
    if budget >= |chunk| { assert part == chunk; }
  }

  // ------------------------------------------------------------ the verdicts

  /** One entry of the judge's `results`: the sample position its id spells, if any, and the readable scores. */
  datatype Item = Item(position: Option<nat>, scores: seq<Score>)

  datatype Score = Score(faithful: bool, value: real)

  datatype Verdict = Verdict(trace: Id, scores: seq<Score>, failed: bool)

  /** The entry that counts for a position: the last one that names it. */
  function LastFor(results: seq<Item>, position: nat): Option<Item>
  {
    if results == [] then None
    else if results[|results| - 1].position == Some(position) then Some(results[|results| - 1])
    else LastFor(results[..|results| - 1], position)
  }

  lemma {:induction false} LastForIsLast(results: seq<Item>, position: nat)
    ensures LastFor(results, position).None? <==> forall k :: 0 <= k < |results| ==>
        results[k].position != Some(position)
    ensures LastFor(results, position).Some? ==>
              exists k :: 0 <= k < |results| && results[k] == LastFor(results, position).value &&
                  results[k].position == Some(position)
                && forall j :: k < j < |results| ==> results[j].position != Some(position)
  {
    if results != [] {
      var front := results[..|results| - 1];
      LastForIsLast(front, position);
      assert forall k :: 0 <= k < |front| ==> front[k] == results[k];
    }
  }

  function Scores(answer: Option<Item>): seq<Score>
  {
    if answer.Some? then answer.value.scores else []
  }

  /** One verdict per sample, in order; a sample the judge skipped or scored unreadably is an error,
      never dropped, and an entry that names no sample changes nothing. */
  method ParseVerdicts(results: seq<Item>, samples: seq<Id>) returns (verdicts: seq<Verdict>)
    ensures |verdicts| == |samples|
    ensures forall i :: 0 <= i < |samples| ==>
              && verdicts[i].trace == samples[i]
              && verdicts[i].scores == Scores(LastFor(results, i))
              && (verdicts[i].failed <==> verdicts[i].scores == [])
  {
    var byId: map<Option<nat>, Item> := map[];
    for k := 0 to |results|
      invariant forall p: nat :: (if Some(p) in byId then Some(byId[Some(p)]) else None) == LastFor(results[..k], p)
    {
      assert results[..k + 1][..k] == results[..k];
      if results[k].position.Some? { byId := byId[results[k].position := results[k]]; }
    }
    assert results[..|results|] == results;
    verdicts := [];
    for i := 0 to |samples|
      invariant |verdicts| == i
      invariant forall j :: 0 <= j < i ==>
                  && verdicts[j].trace == samples[j]
                  && verdicts[j].scores == Scores(LastFor(results, j))
                  && (verdicts[j].failed <==> verdicts[j].scores == [])
    {
      assert (if Some(i) in byId then Some(byId[Some(i)]) else None) == LastFor(results, i);
      if Some(i) !in byId {
        verdicts := verdicts + [Verdict(samples[i], [], true)];
      } else {
        var scores := byId[Some(i)].scores;
        verdicts := verdicts + [Verdict(samples[i], scores, scores == [])];
      }
    }
  }
}
