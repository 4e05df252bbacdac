/**
 * The intent chunk list of the Sonos plugin: an intent's text is held as an
 * ordered list of chunks, each with a unique id, its words and an optional
 * meaning; text processors split chunks to tag the words they recognise.
 * Identifiers drawn from `uuid4` are modelled as fresh naturals taken from a
 * counter of the list that creates the chunk.
 */
module IntentAnalysis {
  import opened Wrappers
  import Text

  /** `Meaning(type, value)`; either may be None. */
  datatype Meaning = Meaning(kind: Option<string>, value: Option<string>)

  /** A chunk never changes once it is in a list, so it is a value. */
  datatype Chunk = Chunk(id: nat, words: string, meaning: Option<Meaning>)

  /** How `split_chunk` ended; the source returns None in every case but Raised. */
  datatype SplitOutcome =
    | UnknownId               // the id is None or names no chunk
    | WordsNotFound           // `find` fails on the chunk's words
    | ByNumberIgnored         // the `chunk_number` form, which changes nothing
    | NoChunkGiven            // neither `id` nor `chunk_number`
    | Split(position: nat)    // the chunk at `position` was replaced
    | Raised(position: nat)   // `split_words[1]` raised IndexError after the removal

  /** The keyword argument naming the chunk to split. */
  datatype Selector = ById(id: Option<nat>) | ByNumber(n: int) | NoSelector

  datatype SplitStep = SplitStep(outcome: SplitOutcome, chunks: seq<Chunk>, nextId: nat)

  predicate UniqueIds(cs: seq<Chunk>)
  {
    forall i, j :: 0 <= i < j < |cs| ==> cs[i].id != cs[j].id
  }

  /** Ids are unique and all drawn before `next`. */
  predicate ValidList(cs: seq<Chunk>, next: nat)
  {
    UniqueIds(cs) && forall k :: 0 <= k < |cs| ==> cs[k].id < next
  }

  /** `id in [chunk.id for chunk in chunks]` */
  predicate HasId(cs: seq<Chunk>, id: nat)
  {
    exists k :: 0 <= k < |cs| && cs[k].id == id
  }

  /** The index of the first chunk with id `id`. */
  function Position(cs: seq<Chunk>, id: nat): (r: Option<nat>)
    ensures r.Some? ==> r.value < |cs| && cs[r.value].id == id
    ensures r.Some? ==> forall j :: 0 <= j < r.value ==> cs[j].id != id
    ensures r.None? <==> forall j :: 0 <= j < |cs| ==> cs[j].id != id
  {
    if cs == [] then None
    else if cs[0].id == id then Some(0)
    else match Position(cs[1..], id)
      case None => None
      case Some(k) => Some(k + 1)
  }

  /** With unique ids the first chunk with an id is the only one. */
  lemma PositionOfUnique(cs: seq<Chunk>, k: nat)
    requires UniqueIds(cs) && k < |cs|
    ensures Position(cs, cs[k].id) == Some(k)
  {
  }

  /** The index of the first chunk in which `text` occurs as a whole word. */
  function FirstWithText(cs: seq<Chunk>, text: string): (r: Option<nat>)
    ensures r.Some? ==> r.value < |cs| && Text.HasWholeWord(text, cs[r.value].words)
    ensures r.Some? ==> forall j :: 0 <= j < r.value ==> !Text.HasWholeWord(text, cs[j].words)
    ensures r.None? <==> forall j :: 0 <= j < |cs| ==> !Text.HasWholeWord(text, cs[j].words)
  {
    if cs == [] then None
    else if Text.HasWholeWord(text, cs[0].words) then Some(0)
    else match FirstWithText(cs[1..], text)
      case None => None
      case Some(k) => Some(k + 1)
  }

  /** `if meaning_type:`: None and the empty string select every meaning. */
  predicate Selects(kind: Option<string>, m: Meaning)
  {
    kind.None? || kind.value == [] || m.kind == kind
  }

  /** `get_chunk_meaning_values`: the values of the chunks that have a
      meaning of the selected type, in chunk order. */
  function MeaningValues(cs: seq<Chunk>, kind: Option<string>): (r: seq<Option<string>>)
    ensures |r| <= |cs|
    ensures forall k :: 0 <= k < |cs| && cs[k].meaning.Some? && Selects(kind, cs[k].meaning.value) ==>
              cs[k].meaning.value.value in r
    ensures forall v :: v in r ==>
              exists k :: 0 <= k < |cs| && cs[k].meaning.Some? && Selects(kind, cs[k].meaning.value) &&
                          cs[k].meaning.value.value == v
    ensures (forall k :: 0 <= k < |cs| ==> cs[k].meaning.None?) ==> r == []
  {
    if cs == [] then []
    else
      var rest := MeaningValues(cs[1..], kind);
      assert forall k :: 1 <= k < |cs| ==> cs[k] == cs[1..][k - 1];
      if cs[0].meaning.Some? && Selects(kind, cs[0].meaning.value)
      then [cs[0].meaning.value.value] + rest
      else rest
  }

  /** Values are collected chunk by chunk, so the order of the list is kept. */
  lemma {:induction false} MeaningValuesAppend(a: seq<Chunk>, b: seq<Chunk>, kind: Option<string>)
    ensures MeaningValues(a + b, kind) == MeaningValues(a, kind) + MeaningValues(b, kind)
  {
    if a == [] {
      assert a + b == b;
    } else {
      assert (a + b)[1..] == a[1..] + b;
      MeaningValuesAppend(a[1..], b, kind);
    }
  }

  /** `list.insert(p, c)` for `p` within the list: the elements before `p`
      stay where they are, `c` lands at index `p` and every later element
      moves up by one. */
  function Insert(cs: seq<Chunk>, p: nat, c: Chunk): (r: seq<Chunk>)
    requires p <= |cs|
    ensures |r| == |cs| + 1 && r[p] == c
    ensures forall k :: 0 <= k < p ==> r[k] == cs[k]
    ensures forall k :: p <= k < |cs| ==> r[k + 1] == cs[k]
  {
    cs[..p] + [c] + cs[p..]
  }

  /** Removing the inserted element again (`del r[p]`) gives back the list,
      so inserting loses no element and adds none besides `c`. */
  lemma InsertElements(cs: seq<Chunk>, p: nat, c: Chunk)
    requires p <= |cs|
    ensures Insert(cs, p, c)[..p] + Insert(cs, p, c)[p + 1..] == cs
    ensures multiset(Insert(cs, p, c)) == multiset(cs) + multiset{c}
  {
    var r := Insert(cs, p, c);
    assert r[..p] == cs[..p] && r[p + 1..] == cs[p..];
    assert cs == cs[..p] + cs[p..];
    assert r == r[..p] + [c] + r[p + 1..];
  }

  /** The index of the tagged chunk in a replacement. */
  function TaggedIndex(pre: string): nat
  {
    if pre == [] then 0 else 1
  }

  /**
   * What replaces the split chunk, given the stripped text before and after
   * the match: the pre chunk (when not empty), the new chunk tagged with
   * `meaning`, then the post chunk (when not empty). The new chunk takes id
   * `next`, the post chunk the one after, the pre chunk the last, in the
   * order they are created.
   */
  function Replacement(pre: string, post: string, words: string, meaning: Meaning, next: nat): (r: seq<Chunk>)
    ensures |r| == TaggedIndex(pre) + 1 + (if post == [] then 0 else 1)
    ensures r[TaggedIndex(pre)] == Chunk(next, words, Some(meaning))
    ensures pre != [] ==> r[0] == Chunk(next + |r| - 1, pre, None)
    ensures post != [] ==> r[|r| - 1] == Chunk(next + 1, post, None)
    ensures UniqueIds(r) && forall j :: 0 <= j < |r| ==> next <= r[j].id < next + |r|
  {
    var postPart := if post == [] then [] else [Chunk(next + 1, post, None)];
    var prePart := if pre == [] then [] else [Chunk(next + 1 + |postPart|, pre, None)];
    prePart + [Chunk(next, words, Some(meaning))] + postPart
  }

  /** Every chunk of a replacement but the tagged one is untagged and not blank. */
  lemma ReplacementMembers(pre: string, post: string, words: string, meaning: Meaning, next: nat)
    ensures forall c :: c in Replacement(pre, post, words, meaning, next) ==>
              c == Chunk(next, words, Some(meaning)) || (c.meaning.None? && c.words != [] && c.words in {pre, post})
  {
  }

  /** Putting `rep` in place of the chunk at `p` keeps the list valid when
      `rep` has unique ids drawn from `next` on. */
  lemma ReplaceKeepsValid(cs: seq<Chunk>, next: nat, p: nat, rep: seq<Chunk>)
    requires ValidList(cs, next) && p < |cs|
    requires UniqueIds(rep) && forall j :: 0 <= j < |rep| ==> next <= rep[j].id < next + |rep|
    ensures ValidList(cs[..p] + rep + cs[p + 1..], next + |rep|)
  {
    var out := cs[..p] + rep + cs[p + 1..];
    var n := |rep|;
    assert forall i :: 0 <= i < p ==> out[i] == cs[i];
    assert forall i :: p <= i < p + n ==> out[i] == rep[i - p];
    assert forall i :: p + n <= i < |out| ==> out[i] == cs[i - n + 1];
  }

  /** Removing the chunk at `p` keeps the list valid. */
  lemma RemoveKeepsValid(cs: seq<Chunk>, next: nat, p: nat)
    requires ValidList(cs, next) && p < |cs|
    ensures ValidList(cs[..p] + cs[p + 1..], next + 1)
  {
    var out := cs[..p] + cs[p + 1..];
    assert forall i :: 0 <= i < p ==> out[i] == cs[i];
    assert forall i :: p <= i < |out| ==> out[i] == cs[i + 1];
  }

  /** The replacement for a chunk with words `text` in which `words` occurs as a whole word. */
  function SplitReplacement(text: string, words: string, meaning: Meaning, next: nat): (r: seq<Chunk>)
    requires Text.SplitHead(words, text).Some?
    ensures 1 <= |r| <= 3 && Chunk(next, words, Some(meaning)) in r
    ensures UniqueIds(r) && forall j :: 0 <= j < |r| ==> next <= r[j].id < next + |r|
  {
    var pieces := Text.SplitHead(words, text).value;
    Replacement(Text.Strip(pieces.0), Text.Strip(pieces.1), words, meaning, next)
  }

  /**
   * `split_chunk` on the list `cs` whose next fresh id is `next`. With a
   * known id the split proceeds at the chunk's position; otherwise, or
   * without an id, nothing changes.
   */
  function SplitSpec(cs: seq<Chunk>, next: nat, words: string, meaning: Meaning, sel: Selector): (r: SplitStep)
    ensures r.outcome.Split? || r.outcome.Raised? || (r.chunks == cs && r.nextId == next)
    ensures r.outcome.NoChunkGiven? <==> sel.NoSelector?
    ensures r.outcome.ByNumberIgnored? <==> sel.ByNumber?
  {
    match sel
    case NoSelector => SplitStep(NoChunkGiven, cs, next)
    case ByNumber(_) => SplitStep(ByNumberIgnored, cs, next)
    case ById(id) =>
      if id.None? || Position(cs, id.value).None? then SplitStep(UnknownId, cs, next)
      else SplitAtSpec(cs, next, Position(cs, id.value).value, words, meaning)
  }

  /**
   * `split_chunk` once the chunk at `p` is found. When its words contain
   * `words` (by `find`) the chunk is removed; then the regex split either
   * yields its first two pieces and the replacement is inserted where the
   * chunk was, or yields one piece and IndexError is raised with the chunk
   * already gone.
   */
  function SplitAtSpec(cs: seq<Chunk>, next: nat, p: nat, words: string, meaning: Meaning): (r: SplitStep)
    requires p < |cs|
    ensures r.outcome.WordsNotFound? || r.outcome == Raised(p) || r.outcome == Split(p)
    ensures r.outcome.WordsNotFound? ==> r.chunks == cs && r.nextId == next
  {
    if !Text.Occurs(words, cs[p].words) then SplitStep(WordsNotFound, cs, next)
    else match Text.SplitHead(words, cs[p].words)
      case None => SplitStep(Raised(p), cs[..p] + cs[p + 1..], next + 1)
      case Some(_) =>
        var rep := SplitReplacement(cs[p].words, words, meaning, next);
        SplitStep(Split(p), cs[..p] + rep + cs[p + 1..], next + |rep|)
  }

  /** Inserting at `p` in front of what was put between the first `p`
      chunks and the rest extends it at the front. */
  lemma InsertAtGap(list: seq<Chunk>, p: nat, x: seq<Chunk>, c: Chunk)
    requires p <= |list|
    ensures Insert(list[..p] + x + list[p..], p, c) == list[..p] + ([c] + x) + list[p..]
  {
    var l := list[..p] + x + list[p..];
    assert l[..p] == list[..p];
    assert l[p..] == x + list[p..];
  }

  /** The replacement laid out piece by piece. */
  lemma ReplacementParts(pre: string, post: string, words: string, meaning: Meaning, next: nat, tail: seq<Chunk>)
    requires tail == if post == [] then [] else [Chunk(next + 1, post, None)]
    ensures pre == [] ==> Replacement(pre, post, words, meaning, next) == [Chunk(next, words, Some(meaning))] + tail
    ensures pre != [] ==> Replacement(pre, post, words, meaning, next)
                          == [Chunk(next + 1 + |tail|, pre, None)] + ([Chunk(next, words, Some(meaning))] + tail)
  {
  }

  /** Which path `split_chunk` takes: an unknown id, a chunk whose words do
      not contain `words`, or a removal followed by a split or an IndexError. */
  lemma SplitCases(cs: seq<Chunk>, next: nat, words: string, meaning: Meaning, sel: Selector)
    ensures var r := SplitSpec(cs, next, words, meaning, sel);
            r.outcome.UnknownId? <==>
              sel.ById? && (sel.id.None? || forall k :: 0 <= k < |cs| ==> cs[k].id != sel.id.value)
    ensures var r := SplitSpec(cs, next, words, meaning, sel);
            r.outcome.WordsNotFound? <==>
              sel.ById? && sel.id.Some? && Position(cs, sel.id.value).Some? &&
              !Text.Occurs(words, cs[Position(cs, sel.id.value).value].words)
    ensures var r := SplitSpec(cs, next, words, meaning, sel);
            (r.outcome.Split? || r.outcome.Raised?) ==>
              var p := r.outcome.position;
              && sel.ById? && sel.id.Some? && Position(cs, sel.id.value) == Some(p)
              && Text.Occurs(words, cs[p].words)
              && (r.outcome.Split? <==> words != [] && Text.HasWholeWord(words, cs[p].words))
  {
  }

  /** After an IndexError the list has lost the selected chunk and nothing else. */
  lemma RaisedLayout(cs: seq<Chunk>, next: nat, words: string, meaning: Meaning, sel: Selector)
    requires SplitSpec(cs, next, words, meaning, sel).outcome.Raised?
    ensures var r := SplitSpec(cs, next, words, meaning, sel);
            && r.outcome.position < |cs|
            && r.chunks == cs[..r.outcome.position] + cs[r.outcome.position + 1..]
            && r.nextId == next + 1
  {
  }

  /** After a split the chunk is replaced in place and the rest is kept. */
  lemma SplitLayout(cs: seq<Chunk>, next: nat, words: string, meaning: Meaning, sel: Selector)
    requires SplitSpec(cs, next, words, meaning, sel).outcome.Split?
    ensures var r := SplitSpec(cs, next, words, meaning, sel);
            var p := r.outcome.position;
            && p < |cs| && Text.SplitHead(words, cs[p].words).Some?
            && var rep := SplitReplacement(cs[p].words, words, meaning, next);
            && r.chunks == cs[..p] + rep + cs[p + 1..]
            && r.nextId == next + |rep|
  {
    var p := Position(cs, sel.id.value).value;
    assert SplitSpec(cs, next, words, meaning, sel) == SplitAtSpec(cs, next, p, words, meaning);
    assert Text.Occurs(words, cs[p].words) && Text.SplitHead(words, cs[p].words).Some?;
    var rep := SplitReplacement(cs[p].words, words, meaning, next);
    assert SplitAtSpec(cs, next, p, words, meaning) == SplitStep(Split(p), cs[..p] + rep + cs[p + 1..], next + |rep|);
  }

  /** Splitting keeps ids unique and below the next fresh id. */
  lemma SplitKeepsValid(cs: seq<Chunk>, next: nat, words: string, meaning: Meaning, sel: Selector)
    requires ValidList(cs, next)
    ensures ValidList(SplitSpec(cs, next, words, meaning, sel).chunks, SplitSpec(cs, next, words, meaning, sel).nextId)
    ensures SplitSpec(cs, next, words, meaning, sel).nextId >= next
  {
    var r := SplitSpec(cs, next, words, meaning, sel);
    if r.outcome.Split? {
      SplitLayout(cs, next, words, meaning, sel);
      var p := r.outcome.position;
      var rep := SplitReplacement(cs[p].words, words, meaning, next);
      ReplaceKeepsValid(cs, next, p, rep);
      assert r.chunks == cs[..p] + rep + cs[p + 1..] && r.nextId == next + |rep|;
    } else if r.outcome.Raised? {
      RaisedLayout(cs, next, words, meaning, sel);
      var p := r.outcome.position;
      RemoveKeepsValid(cs, next, p);
      assert r.chunks == cs[..p] + cs[p + 1..] && r.nextId == next + 1;
    } else {
      assert r.chunks == cs && r.nextId == next;
    }
  }

  /** An element away from the replaced position survives the replacement. */
  lemma KeptAround<T>(cs: seq<T>, p: nat, x: seq<T>, k: nat)
    requires p < |cs| && k < |cs| && k != p
    ensures cs[k] in cs[..p] + x + cs[p + 1..]
  {
    var r := cs[..p] + x + cs[p + 1..];
    if k < p {
      assert r[k] == cs[k];
    } else {
      assert r[k - 1 + |x|] == cs[k];
    }
  }

  /** Every chunk other than the split one survives a split. */
  lemma SplitKeepsOthers(cs: seq<Chunk>, next: nat, words: string, meaning: Meaning, sel: Selector, k: nat)
    requires k < |cs|
    requires var r := SplitSpec(cs, next, words, meaning, sel);
             (r.outcome.Split? || r.outcome.Raised?) ==> k != r.outcome.position
    ensures cs[k] in SplitSpec(cs, next, words, meaning, sel).chunks
  {
    var r := SplitSpec(cs, next, words, meaning, sel);
    if r.outcome.Split? {
      SplitLayout(cs, next, words, meaning, sel);
      var p := r.outcome.position;
      KeptAround(cs, p, SplitReplacement(cs[p].words, words, meaning, next), k);
    } else if r.outcome.Raised? {
      RaisedLayout(cs, next, words, meaning, sel);
      var p := r.outcome.position;
      assert cs[..p] + [] + cs[p + 1..] == r.chunks;
      KeptAround(cs, p, [], k);
    }
  }

  /** A chunk present after a split was present before, or carries no
      meaning, or is the new chunk tagged with the split's meaning. */
  lemma SplitNewChunks(cs: seq<Chunk>, next: nat, words: string, meaning: Meaning, sel: Selector, c: Chunk)
    requires c in SplitSpec(cs, next, words, meaning, sel).chunks
    ensures c in cs || c.meaning.None? || (c.words == words && c.meaning == Some(meaning))
  {
    var r := SplitSpec(cs, next, words, meaning, sel);
    if r.outcome.Split? {
      SplitLayout(cs, next, words, meaning, sel);
      var p := r.outcome.position;
      var rep := SplitReplacement(cs[p].words, words, meaning, next);
      if c in rep {
        var pieces := Text.SplitHead(words, cs[p].words).value;
        ReplacementMembers(Text.Strip(pieces.0), Text.Strip(pieces.1), words, meaning, next);
      } else {
        assert c in cs[..p] || c in cs[p + 1..];
      }
    } else if r.outcome.Raised? {
      RaisedLayout(cs, next, words, meaning, sel);
      assert c in cs[..r.outcome.position] || c in cs[r.outcome.position + 1..];
    }
  }

  /** Only a raised split shortens the list; a split grows it by at most two. */
  lemma SplitLength(cs: seq<Chunk>, next: nat, words: string, meaning: Meaning, sel: Selector)
    ensures var r := SplitSpec(cs, next, words, meaning, sel);
            && (r.outcome.Raised? ==> |r.chunks| == |cs| - 1)
            && (!r.outcome.Raised? ==> |cs| <= |r.chunks| <= |cs| + 2)
  {
    var r := SplitSpec(cs, next, words, meaning, sel);
    if r.outcome.Split? {
      SplitLayout(cs, next, words, meaning, sel);
    } else if r.outcome.Raised? {
      RaisedLayout(cs, next, words, meaning, sel);
    }
  }

  /** "play" occurs in "playing" but is no whole word there: the chunk is
      removed and IndexError is raised, leaving the list empty. */
  lemma PlayingRaises(meaning: Meaning)
    ensures SplitSpec([Chunk(0, "playing", None)], 1, "play", meaning, ById(Some(0)))
            == SplitStep(Raised(0), [], 2)
  {
    Text.FindWithoutWholeWord();
  }

  /** The replacement for "by" in "a by b": "a", the tagged "by", then "b". */
  lemma ReplacementAroundWord(meaning: Meaning)
    ensures Text.SplitHead("by", "a by b").Some?
    ensures Text.SplitHead("by", "a by b").Some? &&
            SplitReplacement("a by b", "by", meaning, 1)
            == [Chunk(3, "a", None), Chunk(1, "by", Some(meaning)), Chunk(2, "b", None)]
  {
    Text.SplitAroundBy();
    Text.StripExamples();
  }

  /** Splitting "by" out of "a by b" gives "a", the tagged "by", then "b". */
  lemma SplitAroundWord(meaning: Meaning)
    ensures SplitSpec([Chunk(0, "a by b", None)], 1, "by", meaning, ById(Some(0)))
            == SplitStep(Split(0), [Chunk(3, "a", None), Chunk(1, "by", Some(meaning)), Chunk(2, "b", None)], 4)
  {
    var cs := [Chunk(0, "a by b", None)];
    assert Position(cs, 0) == Some(0);
    assert Text.OccursAt("by", "a by b", 2);
    Text.SplitAroundBy();
    ReplacementAroundWord(meaning);
    var rep := [Chunk(3, "a", None), Chunk(1, "by", Some(meaning)), Chunk(2, "b", None)];
    assert cs[..0] + rep + cs[1..] == rep;
    assert SplitAtSpec(cs, 1, 0, "by", meaning) == SplitStep(Split(0), rep, 4);
  }

  /**
   * The insertions of a successful `split_chunk` into `list`, from which the
   * split chunk was removed at `p`: the new chunk (created first, with id
   * `next`), then the post chunk inserted in front of what follows, the new
   * chunk in front of it and the pre chunk in front of that.
   */
  method InsertReplacement(list: seq<Chunk>, p: nat, pre: string, post: string, words: string, meaning: Meaning, next: nat)
    returns (r: seq<Chunk>, counter: nat)
    requires p <= |list|
    ensures r == list[..p] + Replacement(pre, post, words, meaning, next) + list[p..]
    ensures counter == next + |Replacement(pre, post, words, meaning, next)|
  {
    r := list;
    counter := next;
    var newChunk := Chunk(counter, words, Some(meaning));
    counter := counter + 1;
    ghost var mid: seq<Chunk> := [];
    assert r == list[..p] + mid + list[p..];
    if post != [] {
      var postChunk := Chunk(counter, post, None);
      counter := counter + 1;
      InsertAtGap(list, p, mid, postChunk);
      r := Insert(r, p, postChunk);
      mid := [postChunk] + mid;
    }
    ghost var tail := mid;
    InsertAtGap(list, p, mid, newChunk);
    r := Insert(r, p, newChunk);
    mid := [newChunk] + mid;
    if pre != [] {
      var preChunk := Chunk(counter, pre, None);
      counter := counter + 1;
      InsertAtGap(list, p, mid, preChunk);
      r := Insert(r, p, preChunk);
      mid := [preChunk] + mid;
    }
    ReplacementParts(pre, post, words, meaning, next, tail);
  }

  /** The intent's chunk list, changed in place by the text processors. */
  class Chunks {
    var chunks: seq<Chunk>
    /** The id the next chunk created takes. */
    var nextId: nat

    ghost predicate Valid()
      reads this
    {
      ValidList(chunks, nextId)
    }

    /** A new list holds one chunk: the whole text, without meaning. */
    constructor (text: string)
      ensures chunks == [Chunk(0, text, None)] && nextId == 1
      ensures Valid()
    {
      chunks := [Chunk(0, text, None)];
      nextId := 1;
    }

    /** `add_chunk`: append an untagged chunk with a fresh id. */
    method AddChunk(words: string) returns (c: Chunk)
      requires Valid()
      modifies this
      ensures Valid()
      ensures c.words == words && c.meaning.None?
      ensures forall k :: 0 <= k < |old(chunks)| ==> old(chunks)[k].id != c.id
      ensures chunks == old(chunks) + [c] && nextId == old(nextId) + 1
    {
      c := Chunk(nextId, words, None);
      chunks := chunks + [c];
      nextId := nextId + 1;
    }

    /** `get_chunk`: the first chunk with id `id`, or None. */
    function GetChunk(id: nat): (r: Option<Chunk>)
      reads this
      ensures r.None? <==> forall k :: 0 <= k < |chunks| ==> chunks[k].id != id
      ensures r.Some? ==> exists k :: 0 <= k < |chunks| && chunks[k] == r.value && r.value.id == id &&
                            forall j :: 0 <= j < k ==> chunks[j].id != id
    {
      match Position(chunks, id)
      case None => None
      case Some(k) => Some(chunks[k])
    }

    /** `get_chunk_position`: count chunks up to the first with id `id`. */
    method GetChunkPosition(id: nat) returns (r: Option<nat>)
      ensures r == Position(chunks, id)
    {
      var i := 0;
      while i < |chunks|
        invariant i <= |chunks|
        invariant forall j :: 0 <= j < i ==> chunks[j].id != id
      {
        if chunks[i].id == id {
          return Some(i);
        }
        i := i + 1;
      }
      return None;
    }

    /** `find_chunk_with_text`: the id of the first chunk containing `text`
        as a whole word, or None. */
    function FindChunkWithText(text: string): (r: Option<nat>)
      reads this
      ensures r.None? <==> forall k :: 0 <= k < |chunks| ==> !Text.HasWholeWord(text, chunks[k].words)
      ensures r.Some? ==> exists k :: 0 <= k < |chunks| && chunks[k].id == r.value &&
                            Text.HasWholeWord(text, chunks[k].words) &&
                            forall j :: 0 <= j < k ==> !Text.HasWholeWord(text, chunks[j].words)
    {
      match FirstWithText(chunks, text)
      case None => None
      case Some(k) => Some(chunks[k].id)
    }

    /**
     * `split_chunk`: remove the selected chunk, then insert at its position
     * the post chunk, the new chunk and the pre chunk, each in front of the
     * previous one. Chunks take their ids from `nextId` as they are created.
     */
    method SplitChunk(words: string, meaning: Meaning, sel: Selector) returns (outcome: SplitOutcome)
      requires Valid()
      modifies this
      ensures SplitStep(outcome, chunks, nextId) == SplitSpec(old(chunks), old(nextId), words, meaning, sel)
      ensures Valid()
    {
      SplitKeepsValid(chunks, nextId, words, meaning, sel);
      if sel.NoSelector? {
        return NoChunkGiven;
      }
      if sel.ByNumber? {
        return ByNumberIgnored;
      }
      var id := sel.id;
      if id.None? {
        return UnknownId;
      }
      if !HasId(chunks, id.value) {
        assert Position(chunks, id.value).None?;
        return UnknownId;
      }
      var position := GetChunkPosition(id.value);
      outcome := SplitAt(position.value, words, meaning);
    }

    /** The part of `split_chunk` after the chunk at `p` is found. */
    method SplitAt(p: nat, words: string, meaning: Meaning) returns (outcome: SplitOutcome)
      requires p < |chunks|
      modifies this
      ensures SplitStep(outcome, chunks, nextId) == SplitAtSpec(old(chunks), old(nextId), p, words, meaning)
    {
      var cs, next := chunks, nextId;
      var oldChunk := chunks[p];
      var found := Text.Occurs(words, oldChunk.words);
      if !found {
        assert SplitAtSpec(cs, next, p, words, meaning) == SplitStep(WordsNotFound, cs, next);
        return WordsNotFound;
      }
      var list := cs[..p] + cs[p + 1..];
      var pieces := Text.SplitHead(words, oldChunk.words);
      if pieces.None? {
        assert SplitAtSpec(cs, next, p, words, meaning) == SplitStep(Raised(p), list, next + 1);
        chunks, nextId := list, next + 1;
        return Raised(p);
      }
      var pre := Text.Strip(pieces.value.0);
      var post := Text.Strip(pieces.value.1);
      var counter;
      assert list[..p] == cs[..p] && list[p..] == cs[p + 1..];
      list, counter := InsertReplacement(list, p, pre, post, words, meaning, next);
      assert SplitAtSpec(cs, next, p, words, meaning) == SplitStep(Split(p), list, counter);
      chunks, nextId := list, counter;
      return Split(p);
    }
  }

  /** An intent owns one chunk list, created from the intent's text. */
  class Intent {
    const chunks: Chunks

    constructor (text: string)
      ensures fresh(chunks)
      ensures chunks.chunks == [Chunk(0, text, None)] && chunks.nextId == 1
      ensures chunks.Valid()
    {
      chunks := new Chunks(text);
    }

    /** `get_chunk_meaning_values`. */
    function GetChunkMeaningValues(kind: Option<string>): seq<Option<string>>
      reads chunks
    {
      MeaningValues(chunks.chunks, kind)
    }
  }
}
