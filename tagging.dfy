/**
 * What the text processors do to an intent's chunk list: for each request
 * in turn, find the first chunk containing the request's text as a whole
 * word and split it there, tagging the text with the request's meaning.
 * The Sonos dictionary processor only splits a chunk that has no meaning
 * yet; the TextRazor handler splits whatever chunk it finds. An IndexError
 * from a split ends the run.
 */
module Tagging {
  import opened Wrappers
  import opened IntentAnalysis
  import Text

  /**
   * A dictionary as the YAML file gives it: for each meaning type, its items,
   * and for each item the phrases (or synonyms) that name it, in file order.
   */
  type Dictionary = seq<(string, seq<(string, seq<string>)>)>

  /** The items of the first entry for `key`; None where the dictionary has no such key. */
  function Lookup(d: Dictionary, key: string): (r: Option<seq<(string, seq<string>)>>)
    ensures r.None? <==> forall k :: 0 <= k < |d| ==> d[k].0 != key
    ensures r.Some? ==> exists k :: 0 <= k < |d| && d[k].0 == key && d[k].1 == r.value &&
                          forall j :: 0 <= j < k ==> d[j].0 != key
  {
    if d == [] then None
    else if d[0].0 == key then Some(d[0].1)
    else
      var r := Lookup(d[1..], key);
      assert forall j :: 0 < j < |d| ==> d[j] == d[1..][j - 1];
      r
  }

  datatype Request = Request(text: string, meaning: Meaning, untaggedOnly: bool)

  /** The chunk list after some requests, and whether every split returned. */
  datatype RunState = RunState(ok: bool, chunks: seq<Chunk>, nextId: nat)

  /** One request: look the text up, then split the chunk found (by id). */
  function Apply(cs: seq<Chunk>, next: nat, req: Request): (r: RunState)
  {
    var found := FirstWithText(cs, req.text);
    if req.untaggedOnly && (found.None? || cs[found.value].meaning.Some?) then RunState(true, cs, next)
    else
      var id := if found.Some? then Some(cs[found.value].id) else None;
      var step := SplitSpec(cs, next, req.text, req.meaning, ById(id));
      RunState(!step.outcome.Raised?, step.chunks, step.nextId)
  }

  /** The requests in order, stopping at the first that raises. */
  function Run(cs: seq<Chunk>, next: nat, reqs: seq<Request>): (r: RunState)
    decreases |reqs|
  {
    if reqs == [] then RunState(true, cs, next)
    else
      var prev := Run(cs, next, reqs[..|reqs| - 1]);
      if !prev.ok then prev else Apply(prev.chunks, prev.nextId, reqs[|reqs| - 1])
  }

  /** One more request after a run. */
  lemma RunSnoc(cs: seq<Chunk>, next: nat, reqs: seq<Request>, req: Request)
    ensures var prev := Run(cs, next, reqs);
            Run(cs, next, reqs + [req]) == if prev.ok then Apply(prev.chunks, prev.nextId, req) else prev
  {
    assert (reqs + [req])[..|reqs|] == reqs;
  }

  /** Running `a + b` is running `a`, then `b` from where `a` left off unless it raised. */
  lemma {:induction false} RunAppend(cs: seq<Chunk>, next: nat, a: seq<Request>, b: seq<Request>)
    ensures var st := Run(cs, next, a);
            Run(cs, next, a + b) == if st.ok then Run(st.chunks, st.nextId, b) else st
    decreases |b|
  {
    var st := Run(cs, next, a);
    if b == [] {
      assert a + b == a;
    } else {
      var init := b[..|b| - 1];
      var last := b[|b| - 1];
      assert a + b == (a + init) + [last];
      assert b == init + [last];
      RunAppend(cs, next, a, init);
      RunSnoc(cs, next, a + init, last);
      if st.ok {
        RunSnoc(st.chunks, st.nextId, init, last);
      }
    }
  }

  /** With unique ids the chunk `Apply` splits is the chunk it found. */
  lemma ApplySplitsFound(cs: seq<Chunk>, next: nat, req: Request)
    requires UniqueIds(cs) && FirstWithText(cs, req.text).Some?
    ensures var k := FirstWithText(cs, req.text).value;
            var step := SplitSpec(cs, next, req.text, req.meaning, ById(Some(cs[k].id)));
            (step.outcome.Split? || step.outcome.Raised?) ==> step.outcome.position == k
  {
    var k := FirstWithText(cs, req.text).value;
    PositionOfUnique(cs, k);
  }

  lemma ApplyKeepsValid(cs: seq<Chunk>, next: nat, req: Request)
    requires ValidList(cs, next)
    ensures ValidList(Apply(cs, next, req).chunks, Apply(cs, next, req).nextId)
    ensures Apply(cs, next, req).nextId >= next
  {
    var found := FirstWithText(cs, req.text);
    var id := if found.Some? then Some(cs[found.value].id) else None;
    SplitKeepsValid(cs, next, req.text, req.meaning, ById(id));
  }

  /** A run keeps ids unique and below the next fresh id. */
  lemma {:induction false} RunKeepsValid(cs: seq<Chunk>, next: nat, reqs: seq<Request>)
    requires ValidList(cs, next)
    ensures ValidList(Run(cs, next, reqs).chunks, Run(cs, next, reqs).nextId)
    ensures Run(cs, next, reqs).nextId >= next
    decreases |reqs|
  {
    if reqs != [] {
      var prev := Run(cs, next, reqs[..|reqs| - 1]);
      RunKeepsValid(cs, next, reqs[..|reqs| - 1]);
      if prev.ok {
        ApplyKeepsValid(prev.chunks, prev.nextId, reqs[|reqs| - 1]);
      }
    }
  }

  /** A request that only splits untagged chunks never removes a tagged one. */
  lemma ApplyKeepsTagged(cs: seq<Chunk>, next: nat, req: Request, c: Chunk)
    requires UniqueIds(cs) && req.untaggedOnly
    requires c in cs && c.meaning.Some?
    ensures c in Apply(cs, next, req).chunks
  {
    var found := FirstWithText(cs, req.text);
    if found.Some? && cs[found.value].meaning.None? {
      var k :| 0 <= k < |cs| && cs[k] == c;
      ApplySplitsFound(cs, next, req);
      SplitKeepsOthers(cs, next, req.text, req.meaning, ById(Some(cs[found.value].id)), k);
    }
  }

  /** Chunks that already carry a meaning survive a run of untagged-only requests. */
  lemma {:induction false} RunKeepsTagged(cs: seq<Chunk>, next: nat, reqs: seq<Request>, c: Chunk)
    requires ValidList(cs, next)
    requires forall k :: 0 <= k < |reqs| ==> reqs[k].untaggedOnly
    requires c in cs && c.meaning.Some?
    ensures c in Run(cs, next, reqs).chunks
    decreases |reqs|
  {
    if reqs != [] {
      var init := reqs[..|reqs| - 1];
      var prev := Run(cs, next, init);
      RunKeepsTagged(cs, next, init, c);
      if prev.ok {
        RunKeepsValid(cs, next, init);
        ApplyKeepsTagged(prev.chunks, prev.nextId, reqs[|reqs| - 1], c);
      }
    }
  }

  /** `c` carries the meaning some request tags its own text with. */
  predicate TaggedBy(c: Chunk, reqs: seq<Request>)
  {
    exists k :: 0 <= k < |reqs| && c.words == reqs[k].text && c.meaning == Some(reqs[k].meaning)
  }

  /** A chunk after a run was there before, or is untagged, or was tagged by a request. */
  lemma {:induction false} RunNewChunks(cs: seq<Chunk>, next: nat, reqs: seq<Request>, c: Chunk)
    requires c in Run(cs, next, reqs).chunks
    ensures c in cs || c.meaning.None? || TaggedBy(c, reqs)
    decreases |reqs|
  {
    if reqs != [] {
      var init := reqs[..|reqs| - 1];
      var req := reqs[|reqs| - 1];
      var prev := Run(cs, next, init);
      if !prev.ok || c in prev.chunks {
        RunNewChunks(cs, next, init, c);
        if TaggedBy(c, init) {
          var k :| 0 <= k < |init| && c.words == init[k].text && c.meaning == Some(init[k].meaning);
          assert reqs[k] == init[k];
        }
      } else {
        var found := FirstWithText(prev.chunks, req.text);
        var id := if found.Some? then Some(prev.chunks[found.value].id) else None;
        SplitNewChunks(prev.chunks, prev.nextId, req.text, req.meaning, ById(id), c);
        assert reqs[|reqs| - 1] == req;
      }
    }
  }

  /** A run that returns never shortens the list; one that raises loses at most one chunk per split. */
  lemma {:induction false} RunLength(cs: seq<Chunk>, next: nat, reqs: seq<Request>)
    ensures Run(cs, next, reqs).ok ==> |Run(cs, next, reqs).chunks| >= |cs|
    ensures |Run(cs, next, reqs).chunks| >= |cs| - 1
    decreases |reqs|
  {
    if reqs != [] {
      var init := reqs[..|reqs| - 1];
      var req := reqs[|reqs| - 1];
      var prev := Run(cs, next, init);
      RunLength(cs, next, init);
      if prev.ok {
        var found := FirstWithText(prev.chunks, req.text);
        var id := if found.Some? then Some(prev.chunks[found.value].id) else None;
        SplitLength(prev.chunks, prev.nextId, req.text, req.meaning, ById(id));
      }
    }
  }

  /** When no request's text occurs as a whole word in any chunk, nothing changes. */
  lemma {:induction false} RunWithoutMatch(cs: seq<Chunk>, next: nat, reqs: seq<Request>)
    requires forall i, k :: 0 <= i < |reqs| && 0 <= k < |cs| ==> !Text.HasWholeWord(reqs[i].text, cs[k].words)
    ensures Run(cs, next, reqs) == RunState(true, cs, next)
    decreases |reqs|
  {
    if reqs != [] {
      var init := reqs[..|reqs| - 1];
      RunWithoutMatch(cs, next, init);
      assert FirstWithText(cs, reqs[|reqs| - 1].text).None?;
    }
  }

  /** The chunk found holds the text as a whole word, so its split cannot raise
      unless the text is empty (an empty pattern never splits). */
  lemma ApplyRaisesOnlyOnEmptyText(cs: seq<Chunk>, next: nat, req: Request)
    requires UniqueIds(cs) && req.text != []
    ensures Apply(cs, next, req).ok
  {
    var found := FirstWithText(cs, req.text);
    if found.Some? {
      var k := found.value;
      PositionOfUnique(cs, k);
      Text.WholeWordOccurs(req.text, cs[k].words);
      assert SplitSpec(cs, next, req.text, req.meaning, ById(Some(cs[k].id))) ==
             SplitAtSpec(cs, next, k, req.text, req.meaning);
    }
  }

  /** A run whose texts are all non-empty never raises. */
  lemma {:induction false} RunOkWithoutEmptyText(cs: seq<Chunk>, next: nat, reqs: seq<Request>)
    requires ValidList(cs, next)
    requires forall k :: 0 <= k < |reqs| ==> reqs[k].text != []
    ensures Run(cs, next, reqs).ok
    decreases |reqs|
  {
    if reqs != [] {
      var init := reqs[..|reqs| - 1];
      RunOkWithoutEmptyText(cs, next, init);
      RunKeepsValid(cs, next, init);
      var prev := Run(cs, next, init);
      ApplyRaisesOnlyOnEmptyText(prev.chunks, prev.nextId, reqs[|reqs| - 1]);
    }
  }

  /** An empty text matches at the first word boundary, so the chunk "play"
      is removed and the split then raises. */
  lemma EmptyTextRaises(m: Meaning)
    ensures Apply([Chunk(0, "play", None)], 1, Request("", m, true)) == RunState(false, [], 2)
  {
    var cs := [Chunk(0, "play", None)];
    assert Text.WholeWordAt("", "play", 0);
    assert Text.OccursAt("", "play", 0);
    assert FirstWithText(cs, "") == Some(0);
    assert Position(cs, 0) == Some(0);
    assert SplitSpec(cs, 1, "", m, ById(Some(0))) == SplitAtSpec(cs, 1, 0, "", m);
  }
}
