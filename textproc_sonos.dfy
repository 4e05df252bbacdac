/**
 * The Sonos dictionary processor: for every meaning type, item and phrase
 * of the dictionary, in order, it tags the first untagged chunk that holds
 * the lower-cased phrase as a whole word.
 */
module TextprocSonos {
  import opened Wrappers
  import opened IntentAnalysis
  import opened Tagging
  import Text

  /** One item's phrases, each asking to tag its lower-cased text with (meaning type, item). */
  function PhraseRequests(kind: string, item: string, phrases: seq<string>): (r: seq<Request>)
    ensures |r| == |phrases|
    ensures forall k :: 0 <= k < |phrases| ==>
              r[k] == Request(Text.Lower(phrases[k]), Meaning(Some(kind), Some(item)), true)
  {
    seq(|phrases|, k requires 0 <= k < |phrases| => Request(Text.Lower(phrases[k]), Meaning(Some(kind), Some(item)), true))
  }

  /** The requests of every item of one meaning type, item after item. */
  function ItemRequests(kind: string, items: seq<(string, seq<string>)>): seq<Request>
  {
    if items == [] then []
    else
      var last := items[|items| - 1];
      ItemRequests(kind, items[..|items| - 1]) + PhraseRequests(kind, last.0, last.1)
  }

  /** The requests of the whole dictionary, meaning type after meaning type. */
  function DictionaryRequests(d: Dictionary): seq<Request>
  {
    if d == [] then []
    else DictionaryRequests(d[..|d| - 1]) + ItemRequests(d[|d| - 1].0, d[|d| - 1].1)
  }

  lemma PhraseRequestsAppend(kind: string, item: string, phrases: seq<string>, n: nat)
    requires n <= |phrases|
    ensures PhraseRequests(kind, item, phrases) ==
            PhraseRequests(kind, item, phrases[..n]) + PhraseRequests(kind, item, phrases[n..])
  {
  }

  lemma PhraseRequestsStep(kind: string, item: string, phrases: seq<string>, k: nat)
    requires k < |phrases|
    ensures PhraseRequests(kind, item, phrases[..k + 1]) ==
            PhraseRequests(kind, item, phrases[..k]) + [PhraseRequests(kind, item, phrases)[k]]
  {
  }

  lemma ItemRequestsStep(kind: string, items: seq<(string, seq<string>)>, j: nat)
    requires j < |items|
    ensures ItemRequests(kind, items[..j + 1]) ==
            ItemRequests(kind, items[..j]) + PhraseRequests(kind, items[j].0, items[j].1)
  {
    assert items[..j + 1][..j] == items[..j];
  }

  lemma {:induction false} ItemRequestsAppend(kind: string, items: seq<(string, seq<string>)>, n: nat)
    requires n <= |items|
    ensures ItemRequests(kind, items) == ItemRequests(kind, items[..n]) + ItemRequests(kind, items[n..])
    decreases |items|
  {
    if n < |items| {
      var init := items[..|items| - 1];
      var last := items[|items| - 1];
      ItemRequestsAppend(kind, init, n);
      assert init[..n] == items[..n];
      assert items[n..] == init[n..] + [last];
      assert items[n..][..|items[n..]| - 1] == init[n..];
    } else {
      assert items[..n] == items;
    }
  }

  lemma {:induction false} DictionaryRequestsAppend(d: Dictionary, n: nat)
    requires n <= |d|
    ensures DictionaryRequests(d) == DictionaryRequests(d[..n]) + DictionaryRequests(d[n..])
    decreases |d|
  {
    if n < |d| {
      var init := d[..|d| - 1];
      DictionaryRequestsAppend(init, n);
      assert init[..n] == d[..n];
      assert d[n..][..|d[n..]| - 1] == init[n..];
    } else {
      assert d[..n] == d;
    }
  }

  /** Every request of the dictionary only tags untagged chunks, and carries
      a lower-cased phrase of the dictionary with that phrase's type and item. */
  lemma {:induction false} DictionaryRequestsFrom(d: Dictionary, q: Request)
    requires q in DictionaryRequests(d)
    ensures q.untaggedOnly
    ensures exists i, j, k :: 0 <= i < |d| && 0 <= j < |d[i].1| && 0 <= k < |d[i].1[j].1| &&
              q == Request(Text.Lower(d[i].1[j].1[k]), Meaning(Some(d[i].0), Some(d[i].1[j].0)), true)
    decreases |d|
  {
    var init := d[..|d| - 1];
    var kind := d[|d| - 1].0;
    if q in DictionaryRequests(init) {
      DictionaryRequestsFrom(init, q);
      var i, j, k :| 0 <= i < |init| && 0 <= j < |init[i].1| && 0 <= k < |init[i].1[j].1| &&
              q == Request(Text.Lower(init[i].1[j].1[k]), Meaning(Some(init[i].0), Some(init[i].1[j].0)), true);
      assert init[i] == d[i];
    } else {
      var j, k := ItemRequestsFrom(kind, d[|d| - 1].1, q);
      assert q == Request(Text.Lower(d[|d| - 1].1[j].1[k]), Meaning(Some(d[|d| - 1].0), Some(d[|d| - 1].1[j].0)), true);
    }
  }

  lemma {:induction false} ItemRequestsFrom(kind: string, items: seq<(string, seq<string>)>, q: Request)
    returns (j: nat, k: nat)
    requires q in ItemRequests(kind, items)
    ensures j < |items| && k < |items[j].1|
    ensures q == Request(Text.Lower(items[j].1[k]), Meaning(Some(kind), Some(items[j].0)), true)
    decreases |items|
  {
    var init := items[..|items| - 1];
    var last := items[|items| - 1];
    if q in ItemRequests(kind, init) {
      j, k := ItemRequestsFrom(kind, init, q);
    } else {
      var rs := PhraseRequests(kind, last.0, last.1);
      var n :| 0 <= n < |rs| && rs[n] == q;
      j, k := |items| - 1, n;
    }
  }

  /**
   * One phrase (lines 19-26): look the lower-cased phrase up, and split the
   * chunk found if it has no meaning yet. Chunk ids are never falsy, so a
   * found id always passes the test on line 22.
   */
  method ProcessPhrase(chunks: Chunks, kind: string, item: string, phrase: string) returns (ok: bool)
    requires chunks.Valid()
    modifies chunks
    ensures chunks.Valid()
    ensures RunState(ok, chunks.chunks, chunks.nextId) ==
            Apply(old(chunks.chunks), old(chunks.nextId), Request(Text.Lower(phrase), Meaning(Some(kind), Some(item)), true))
  {
    ghost var cs, next := chunks.chunks, chunks.nextId;
    var text := Text.Lower(Text.Lower(phrase));
    Text.LowerIdempotent(phrase);
    var id := chunks.FindChunkWithText(text);
    if id.Some? {
      PositionOfUnique(cs, FirstWithText(cs, text).value);
      var target := chunks.GetChunk(id.value);
      if target.value.meaning.None? {
        var outcome := chunks.SplitChunk(text, Meaning(Some(kind), Some(item)), ById(id));
        return !outcome.Raised?;
      }
    }
    return true;
  }

  /** The phrases of one item (line 18), stopping at a split that raises. */
  method ProcessPhrases(chunks: Chunks, kind: string, item: string, phrases: seq<string>) returns (ok: bool)
    requires chunks.Valid()
    modifies chunks
    ensures chunks.Valid()
    ensures RunState(ok, chunks.chunks, chunks.nextId) ==
            Run(old(chunks.chunks), old(chunks.nextId), PhraseRequests(kind, item, phrases))
  {
    ghost var cs, next := chunks.chunks, chunks.nextId;
    var k := 0;
    while k < |phrases|
      invariant k <= |phrases|
      invariant chunks.Valid()
      invariant RunState(true, chunks.chunks, chunks.nextId) == Run(cs, next, PhraseRequests(kind, item, phrases[..k]))
    {
      ok := ProcessPhrase(chunks, kind, item, phrases[k]);
      PhraseRequestsStep(kind, item, phrases, k);
      RunSnoc(cs, next, PhraseRequests(kind, item, phrases[..k]), PhraseRequests(kind, item, phrases)[k]);
      if !ok {
        PhraseRequestsAppend(kind, item, phrases, k + 1);
        RunAppend(cs, next, PhraseRequests(kind, item, phrases[..k + 1]), PhraseRequests(kind, item, phrases[k + 1..]));
        return;
      }
      k := k + 1;
    }
    assert phrases[..k] == phrases;
    return true;
  }

  /** The items of one meaning type (line 17), stopping at a split that raises. */
  method ProcessItems(chunks: Chunks, kind: string, items: seq<(string, seq<string>)>) returns (ok: bool)
    requires chunks.Valid()
    modifies chunks
    ensures chunks.Valid()
    ensures RunState(ok, chunks.chunks, chunks.nextId) ==
            Run(old(chunks.chunks), old(chunks.nextId), ItemRequests(kind, items))
  {
    ghost var cs, next := chunks.chunks, chunks.nextId;
    var j := 0;
    while j < |items|
      invariant j <= |items|
      invariant chunks.Valid()
      invariant RunState(true, chunks.chunks, chunks.nextId) == Run(cs, next, ItemRequests(kind, items[..j]))
    {
      ok := ProcessPhrases(chunks, kind, items[j].0, items[j].1);
      ItemRequestsStep(kind, items, j);
      RunAppend(cs, next, ItemRequests(kind, items[..j]), PhraseRequests(kind, items[j].0, items[j].1));
      if !ok {
        ItemRequestsAppend(kind, items, j + 1);
        RunAppend(cs, next, ItemRequests(kind, items[..j + 1]), ItemRequests(kind, items[j + 1..]));
        return;
      }
      j := j + 1;
    }
    assert items[..j] == items;
    return true;
  }

  /** `_process_dictionary`: every meaning type in order, stopping at a split that raises. */
  method ProcessDictionary(intent: Intent, d: Dictionary) returns (ok: bool)
    requires intent.chunks.Valid()
    modifies intent.chunks
    ensures intent.chunks.Valid()
    ensures RunState(ok, intent.chunks.chunks, intent.chunks.nextId) ==
            Run(old(intent.chunks.chunks), old(intent.chunks.nextId), DictionaryRequests(d))
  {
    var chunks := intent.chunks;
    ghost var cs, next := chunks.chunks, chunks.nextId;
    var i := 0;
    while i < |d|
      invariant i <= |d|
      invariant chunks.Valid()
      invariant RunState(true, chunks.chunks, chunks.nextId) == Run(cs, next, DictionaryRequests(d[..i]))
    {
      ok := ProcessItems(chunks, d[i].0, d[i].1);
      assert d[..i + 1][..i] == d[..i];
      RunAppend(cs, next, DictionaryRequests(d[..i]), ItemRequests(d[i].0, d[i].1));
      if !ok {
        DictionaryRequestsAppend(d, i + 1);
        RunAppend(cs, next, DictionaryRequests(d[..i + 1]), DictionaryRequests(d[i + 1..]));
        return;
      }
      i := i + 1;
    }
    assert d[..i] == d;
    return true;
  }

  /** `process`: the profile is not used. */
  method Process(intent: Intent, d: Dictionary) returns (ok: bool)
    requires intent.chunks.Valid()
    modifies intent.chunks
    ensures intent.chunks.Valid()
    ensures RunState(ok, intent.chunks.chunks, intent.chunks.nextId) ==
            Run(old(intent.chunks.chunks), old(intent.chunks.nextId), DictionaryRequests(d))
  {
    ok := ProcessDictionary(intent, d);
  }

  /** A chunk that already had a meaning is still in the list afterwards. */
  lemma KeepsTagged(cs: seq<Chunk>, next: nat, d: Dictionary, c: Chunk)
    requires ValidList(cs, next)
    requires c in cs && c.meaning.Some?
    ensures c in Run(cs, next, DictionaryRequests(d)).chunks
  {
    var reqs := DictionaryRequests(d);
    forall k | 0 <= k < |reqs|
      ensures reqs[k].untaggedOnly
    {
      DictionaryRequestsFrom(d, reqs[k]);
    }
    RunKeepsTagged(cs, next, reqs, c);
  }

  /** Every chunk afterwards was there before, is untagged, or holds a lower-cased
      dictionary phrase tagged with that phrase's meaning type and item. */
  lemma NewChunksFromDictionary(cs: seq<Chunk>, next: nat, d: Dictionary, c: Chunk)
    requires c in Run(cs, next, DictionaryRequests(d)).chunks
    ensures c in cs || c.meaning.None? ||
            exists i, j, k :: 0 <= i < |d| && 0 <= j < |d[i].1| && 0 <= k < |d[i].1[j].1| &&
              c.words == Text.Lower(d[i].1[j].1[k]) && c.meaning == Some(Meaning(Some(d[i].0), Some(d[i].1[j].0)))
  {
    var reqs := DictionaryRequests(d);
    RunNewChunks(cs, next, reqs, c);
    if !(c in cs || c.meaning.None?) {
      var n :| 0 <= n < |reqs| && c.words == reqs[n].text && c.meaning == Some(reqs[n].meaning);
      DictionaryRequestsFrom(d, reqs[n]);
    }
  }

  /** When no lower-cased phrase occurs as a whole word in any chunk, the list is left alone. */
  lemma NoPhraseNoChange(cs: seq<Chunk>, next: nat, d: Dictionary)
    requires forall i, j, k, n :: 0 <= i < |d| && 0 <= j < |d[i].1| && 0 <= k < |d[i].1[j].1| && 0 <= n < |cs| ==>
               !Text.HasWholeWord(Text.Lower(d[i].1[j].1[k]), cs[n].words)
    ensures Run(cs, next, DictionaryRequests(d)) == RunState(true, cs, next)
  {
    var reqs := DictionaryRequests(d);
    forall q, n | 0 <= q < |reqs| && 0 <= n < |cs|
      ensures !Text.HasWholeWord(reqs[q].text, cs[n].words)
    {
      DictionaryRequestsFrom(d, reqs[q]);
    }
    RunWithoutMatch(cs, next, reqs);
  }

  /** The dictionary pass raises only when the dictionary holds an empty phrase. */
  lemma NonEmptyPhrasesNeverRaise(cs: seq<Chunk>, next: nat, d: Dictionary)
    requires ValidList(cs, next)
    requires forall i, j, k :: 0 <= i < |d| && 0 <= j < |d[i].1| && 0 <= k < |d[i].1[j].1| ==> d[i].1[j].1[k] != []
    ensures Run(cs, next, DictionaryRequests(d)).ok
  {
    var reqs := DictionaryRequests(d);
    forall q | 0 <= q < |reqs|
      ensures reqs[q].text != []
    {
      DictionaryRequestsFrom(d, reqs[q]);
    }
    RunOkWithoutEmptyText(cs, next, reqs);
  }

  /** Only the first chunk holding the phrase is looked at: when it is already
      tagged the phrase is skipped, though a later untagged chunk holds it too. */
  lemma TaggedFirstMatchBlocksPhrase(m: Meaning, kind: string, item: string)
    ensures var cs := [Chunk(0, "play", Some(m)), Chunk(1, "play jazz", None)];
            Run(cs, 2, PhraseRequests(kind, item, ["Play"])) == RunState(true, cs, 2)
  {
    var cs := [Chunk(0, "play", Some(m)), Chunk(1, "play jazz", None)];
    var reqs := PhraseRequests(kind, item, ["Play"]);
    assert Text.Lower("Play") == "play";
    assert Text.WholeWordAt("play", "play", 0);
    assert FirstWithText(cs, "play") == Some(0);
    assert reqs == [Request("play", Meaning(Some(kind), Some(item)), true)];
    assert reqs[..0] == [];
  }
}
