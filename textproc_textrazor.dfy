/**
 * The TextRazor text processor: the type filters sent to the service, the
 * choice of one category per entity from the Freebase and DBpedia types the
 * service reports, and the chunk splitting driven by the analysis (entities
 * first, then verbs that name an action of the dictionary).
 */
module TextprocTextrazor {
  import opened Wrappers
  import opened IntentAnalysis
  import opened Tagging
  import Text

  /**
   * A filter file: for each category, the service's types that count for it,
   * in file order. A null entry is an empty list.
   */
  type Filters = seq<(string, seq<string>)>

  /** The processor's loaded configuration (the profile and the client are not modelled). */
  datatype Config = Config(freebase: Filters, dbpedia: Filters, dictionary: Dictionary)

  /** A word of the analysis: its token and its Penn Treebank tag. */
  datatype Word = Word(text: string, penn: string)

  /** An entity as the service reports it. */
  datatype Reported = Reported(matchedText: string, freebaseTypes: seq<string>, dbpediaTypes: seq<string>)

  /** An entity of the analysis: its text and the category chosen for it. */
  datatype Entity = Entity(text: string, kind: string)

  // ---------------------------------------------------------------------
  // The filters sent to the service

  /** Every type of every category, category after category. */
  function AllTypes(f: Filters): (r: seq<string>)
  {
    if f == [] then [] else AllTypes(f[..|f| - 1]) + f[|f| - 1].1
  }

  function TypeCount(f: Filters): nat
  {
    if f == [] then 0 else TypeCount(f[..|f| - 1]) + |f[|f| - 1].1|
  }

  /** The flattened list holds exactly the types of the categories, all of them. */
  lemma {:induction false} AllTypesMembers(f: Filters)
    ensures |AllTypes(f)| == TypeCount(f)
    ensures forall t :: t in AllTypes(f) <==> exists k :: 0 <= k < |f| && t in f[k].1
    decreases |f|
  {
    if f != [] {
      var init := f[..|f| - 1];
      AllTypesMembers(init);
      forall t | t in AllTypes(f)
        ensures exists k :: 0 <= k < |f| && t in f[k].1
      {
        if t in AllTypes(init) {
          var k :| 0 <= k < |init| && t in init[k].1;
          assert f[k] == init[k];
        } else {
          assert t in f[|f| - 1].1;
        }
      }
      forall t | exists k :: 0 <= k < |f| && t in f[k].1
        ensures t in AllTypes(f)
      {
        var k :| 0 <= k < |f| && t in f[k].1;
        if k < |f| - 1 {
          assert init[k] == f[k];
        }
      }
    }
  }

  /** `_get_freebase_filters` and `_get_dbpedia_filters` (the same code over the two files). */
  method FlattenFilters(f: Filters) returns (r: seq<string>)
    ensures r == AllTypes(f)
  {
    r := [];
    var i := 0;
    while i < |f|
      invariant i <= |f|
      invariant r == AllTypes(f[..i])
    {
      assert f[..i + 1][..i] == f[..i];
      if f[i].1 != [] {
        var j := 0;
        while j < |f[i].1|
          invariant j <= |f[i].1|
          invariant r == AllTypes(f[..i]) + f[i].1[..j]
        {
          assert f[i].1[..j + 1] == f[i].1[..j] + [f[i].1[j]];
          r := r + [f[i].1[j]];
          j := j + 1;
        }
        assert f[i].1[..j] == f[i].1;
      }
      i := i + 1;
    }
    assert f[..i] == f;
  }

  // ---------------------------------------------------------------------
  // The category of an entity

  /** How many times `t` appears in `vs`. */
  function Occurrences(t: string, vs: seq<string>): (r: nat)
    ensures r <= |vs|
    ensures r == 0 <==> t !in vs
  {
    if vs == [] then 0
    else Occurrences(t, vs[..|vs| - 1]) + (if vs[|vs| - 1] == t then 1 else 0)
  }

  /** How many times `t` appears in the lists of the entries for category `u`. */
  function Hits(t: string, f: Filters, u: string): nat
  {
    if f == [] then 0
    else Hits(t, f[..|f| - 1], u) + (if f[|f| - 1].0 == u then Occurrences(t, f[|f| - 1].1) else 0)
  }

  /** The points category `u` gets from the reported types `ts`. */
  function Matches(ts: seq<string>, f: Filters, u: string): nat
  {
    if ts == [] then 0 else Matches(ts[..|ts| - 1], f, u) + Hits(ts[|ts| - 1], f, u)
  }

  /** The score of category `u` for an entity with the given reported types. */
  function Score(cfg: Config, fb: seq<string>, db: seq<string>, u: string): nat
  {
    Matches(fb, cfg.freebase, u) + Matches(db, cfg.dbpedia, u)
  }

  /** A category with no entry in `f` gets no points from it. */
  lemma {:induction false} MatchesWithoutEntry(ts: seq<string>, f: Filters, u: string)
    requires forall k :: 0 <= k < |f| ==> f[k].0 != u
    ensures Matches(ts, f, u) == 0
    decreases |ts|
  {
    if ts != [] {
      MatchesWithoutEntry(ts[..|ts| - 1], f, u);
      HitsWithoutEntry(ts[|ts| - 1], f, u);
    }
  }

  lemma {:induction false} HitsWithoutEntry(t: string, f: Filters, u: string)
    requires forall k :: 0 <= k < |f| ==> f[k].0 != u
    ensures Hits(t, f, u) == 0
    decreases |f|
  {
    if f != [] {
      HitsWithoutEntry(t, f[..|f| - 1], u);
    }
  }

  /** `order` followed by the categories of `f` it does not hold yet, in file order. */
  function KeyOrder(order: seq<string>, f: Filters): seq<string>
  {
    if f == [] then order
    else
      var o := KeyOrder(order, f[..|f| - 1]);
      if f[|f| - 1].0 in o then o else o + [f[|f| - 1].0]
  }

  /** The categories in the order the ranking dictionary receives them. */
  function Categories(cfg: Config): seq<string>
  {
    KeyOrder(KeyOrder([], cfg.freebase), cfg.dbpedia)
  }

  predicate NoDuplicates(s: seq<string>)
  {
    forall i, j :: 0 <= i < j < |s| ==> s[i] != s[j]
  }

  lemma {:induction false} KeyOrderMembers(order: seq<string>, f: Filters)
    requires NoDuplicates(order)
    ensures NoDuplicates(KeyOrder(order, f))
    ensures forall u :: u in KeyOrder(order, f) <==> u in order || exists k :: 0 <= k < |f| && f[k].0 == u
    decreases |f|
  {
    if f != [] {
      var o := KeyOrder(order, f[..|f| - 1]);
      KeyOrderMembers(order, f[..|f| - 1]);
      if f[|f| - 1].0 !in o {
        AppendFresh(o, f[|f| - 1].0);
      }
      NamesSnoc(f);
    }
  }

  lemma AppendFresh(s: seq<string>, x: string)
    requires NoDuplicates(s) && x !in s
    ensures NoDuplicates(s + [x])
  {
  }

  /** `u` is the category of some entry of `f`. */
  predicate Named(f: Filters, u: string)
  {
    exists k :: 0 <= k < |f| && f[k].0 == u
  }

  /** A category is named in `f` exactly when it is named in all but its last
      entry, or is the last entry's. */
  lemma NamesSnoc(f: Filters)
    requires f != []
    ensures forall u :: Named(f, u) <==> Named(f[..|f| - 1], u) || f[|f| - 1].0 == u
  {
    var init := f[..|f| - 1];
    assert forall k :: 0 <= k < |init| ==> init[k] == f[k];
  }

  /** The ranking holds every category of both files once each. */
  lemma CategoriesMembers(cfg: Config)
    ensures NoDuplicates(Categories(cfg))
    ensures forall u :: u in Categories(cfg) <==>
              (exists k :: 0 <= k < |cfg.freebase| && cfg.freebase[k].0 == u) ||
              (exists k :: 0 <= k < |cfg.dbpedia| && cfg.dbpedia[k].0 == u)
  {
    KeyOrderMembers([], cfg.freebase);
    KeyOrderMembers(KeyOrder([], cfg.freebase), cfg.dbpedia);
  }

  /** The scan of lines 95-100: the best score so far and its category. */
  function Best(cfg: Config, fb: seq<string>, db: seq<string>, order: seq<string>): (nat, string)
  {
    if order == [] then (0, "none")
    else
      var prev := Best(cfg, fb, db, order[..|order| - 1]);
      var u := order[|order| - 1];
      if Score(cfg, fb, db, u) > prev.0 then (Score(cfg, fb, db, u), u) else prev
  }

  /**
   * The scan finds "none" with score 0 when no category scores, and otherwise
   * the first category with the highest score.
   */
  lemma {:induction false} BestIsFirstMaximum(cfg: Config, fb: seq<string>, db: seq<string>, order: seq<string>)
    ensures var (s, r) := Best(cfg, fb, db, order);
            (forall j :: 0 <= j < |order| ==> Score(cfg, fb, db, order[j]) == 0) ==> s == 0 && r == "none"
    ensures var (s, r) := Best(cfg, fb, db, order);
            (exists j :: 0 <= j < |order| && Score(cfg, fb, db, order[j]) > 0) ==>
              exists k :: 0 <= k < |order| && order[k] == r && s == Score(cfg, fb, db, r) > 0 &&
                (forall j :: 0 <= j < |order| ==> Score(cfg, fb, db, order[j]) <= s) &&
                (forall j :: 0 <= j < k ==> Score(cfg, fb, db, order[j]) < s)
  {
    if forall j :: 0 <= j < |order| ==> Score(cfg, fb, db, order[j]) == 0 {
      BestZero(cfg, fb, db, order);
    } else {
      var k := BestIndex(cfg, fb, db, order);
    }
  }

  /** No category scores: the scan keeps its start value. */
  lemma {:induction false} BestZero(cfg: Config, fb: seq<string>, db: seq<string>, order: seq<string>)
    requires forall j :: 0 <= j < |order| ==> Score(cfg, fb, db, order[j]) == 0
    ensures Best(cfg, fb, db, order) == (0, "none")
    decreases |order|
  {
    if order != [] {
      var init := order[..|order| - 1];
      assert forall j :: 0 <= j < |init| ==> init[j] == order[j];
      BestZero(cfg, fb, db, init);
    }
  }

  /** Some category scores: the position of the category the scan keeps. */
  lemma {:induction false} BestIndex(cfg: Config, fb: seq<string>, db: seq<string>, order: seq<string>)
    returns (k: nat)
    requires exists j :: 0 <= j < |order| && Score(cfg, fb, db, order[j]) > 0
    ensures var (s, r) := Best(cfg, fb, db, order);
            k < |order| && order[k] == r && s == Score(cfg, fb, db, r) > 0 &&
            (forall j :: 0 <= j < |order| ==> Score(cfg, fb, db, order[j]) <= s) &&
            (forall j :: 0 <= j < k ==> Score(cfg, fb, db, order[j]) < s)
    decreases |order|
  {
    var init := order[..|order| - 1];
    var u := order[|order| - 1];
    assert forall j :: 0 <= j < |init| ==> init[j] == order[j];
    if exists j :: 0 <= j < |init| && Score(cfg, fb, db, init[j]) > 0 {
      k := BestIndex(cfg, fb, db, init);
      if Score(cfg, fb, db, u) > Best(cfg, fb, db, init).0 {
        k := |order| - 1;
      }
    } else {
      BestZero(cfg, fb, db, init);
      k := |order| - 1;
    }
  }

  /** `_get_entity_type`: the category chosen for an entity. */
  function EntityType(cfg: Config, fb: seq<string>, db: seq<string>): string
  {
    Best(cfg, fb, db, Categories(cfg)).1
  }

  /** Lines 77-82: add each category of `f` not yet in the ranking, with count 0. */
  method AddCategories(types: map<string, nat>, order: seq<string>, f: Filters)
    returns (types': map<string, nat>, order': seq<string>)
    requires forall u :: u in types <==> u in order
    ensures order' == KeyOrder(order, f)
    ensures forall u :: u in types' <==> u in order'
    ensures forall u :: u in types' ==> types'[u] == if u in types then types[u] else 0
  {
    types', order' := types, order;
    var i := 0;
    while i < |f|
      invariant i <= |f|
      invariant order' == KeyOrder(order, f[..i])
      invariant forall u :: u in types' <==> u in order'
      invariant forall u :: u in types ==> u in types'
      invariant forall u :: u in types' ==> types'[u] == if u in types then types[u] else 0
    {
      assert f[..i + 1][..i] == f[..i];
      if f[i].0 !in types' {
        types' := types'[f[i].0 := 0];
        order' := order' + [f[i].0];
      }
      i := i + 1;
    }
    assert f[..i] == f;
  }

  /** Lines 86-88: one point to category `u` for each `v` equal to `t`. */
  method CountEntry(types: map<string, nat>, t: string, u: string, vs: seq<string>) returns (types': map<string, nat>)
    requires u in types
    ensures types' == types[u := types[u] + Occurrences(t, vs)]
  {
    types' := types;
    var k := 0;
    while k < |vs|
      invariant k <= |vs|
      invariant types' == types[u := types[u] + Occurrences(t, vs[..k])]
    {
      assert vs[..k + 1][..k] == vs[..k];
      if t == vs[k] {
        types' := types'[u := types'[u] + 1];
      }
      k := k + 1;
    }
    assert vs[..k] == vs;
  }

  /** Lines 84-88: the points one reported type `t` gives every category of `f`. */
  method CountType(types: map<string, nat>, t: string, f: Filters) returns (types': map<string, nat>)
    requires forall k :: 0 <= k < |f| ==> f[k].0 in types
    ensures types'.Keys == types.Keys
    ensures forall u :: u in types ==> types'[u] == types[u] + Hits(t, f, u)
  {
    types' := types;
    var j := 0;
    while j < |f|
      invariant j <= |f|
      invariant types'.Keys == types.Keys
      invariant forall u :: u in types ==> types'[u] == types[u] + Hits(t, f[..j], u)
    {
      assert f[..j + 1][..j] == f[..j];
      if f[j].1 != [] {
        types' := CountEntry(types', t, f[j].0, f[j].1);
      }
      j := j + 1;
    }
    assert f[..j] == f;
  }

  /** Lines 83-94: the points all reported types `ts` give the categories of `f`. */
  method CountMatches(types: map<string, nat>, ts: seq<string>, f: Filters) returns (types': map<string, nat>)
    requires forall k :: 0 <= k < |f| ==> f[k].0 in types
    ensures types'.Keys == types.Keys
    ensures forall u :: u in types ==> types'[u] == types[u] + Matches(ts, f, u)
  {
    types' := types;
    var i := 0;
    while i < |ts|
      invariant i <= |ts|
      invariant types'.Keys == types.Keys
      invariant forall u :: u in types ==> types'[u] == types[u] + Matches(ts[..i], f, u)
    {
      assert ts[..i + 1][..i] == ts[..i];
      types' := CountType(types', ts[i], f);
      i := i + 1;
    }
    assert ts[..i] == ts;
  }

  /** Lines 95-101: scan the ranking in order for the first highest positive count. */
  method Rank(cfg: Config, fb: seq<string>, db: seq<string>, types: map<string, nat>, order: seq<string>)
    returns (r: string)
    requires forall k :: 0 <= k < |order| ==> order[k] in types && types[order[k]] == Score(cfg, fb, db, order[k])
    ensures r == Best(cfg, fb, db, order).1
  {
    var score: nat := 0;
    r := "none";
    var i := 0;
    while i < |order|
      invariant i <= |order|
      invariant (score, r) == Best(cfg, fb, db, order[..i])
    {
      assert order[..i + 1][..i] == order[..i];
      if types[order[i]] > score {
        score := types[order[i]];
        r := order[i];
      }
      i := i + 1;
    }
    assert order[..i] == order;
  }

  /** `_get_entity_type`. */
  method GetEntityType(cfg: Config, fb: seq<string>, db: seq<string>) returns (r: string)
    ensures r == EntityType(cfg, fb, db)
  {
    var types, order := AddCategories(map[], [], cfg.freebase);
    types, order := AddCategories(types, order, cfg.dbpedia);
    CategoriesMembers(cfg);
    ghost var zeros := types;
    types := CountMatches(types, fb, cfg.freebase);
    types := CountMatches(types, db, cfg.dbpedia);
    forall k | 0 <= k < |order|
      ensures order[k] in types && types[order[k]] == Score(cfg, fb, db, order[k])
    {
      assert order[k] in zeros;
    }
    r := Rank(cfg, fb, db, types, order);
  }

  /** Each reported entity with the category chosen for it. */
  function Categorised(cfg: Config, reported: seq<Reported>): (es: seq<Entity>)
    ensures |es| == |reported|
    ensures forall k :: 0 <= k < |reported| ==>
              es[k] == Entity(reported[k].matchedText, EntityType(cfg, reported[k].freebaseTypes, reported[k].dbpediaTypes))
  {
    seq(|reported|, k requires 0 <= k < |reported| =>
      Entity(reported[k].matchedText, EntityType(cfg, reported[k].freebaseTypes, reported[k].dbpediaTypes)))
  }

  /** Lines 35-37: each reported entity with its chosen category. */
  method Entities(cfg: Config, reported: seq<Reported>) returns (es: seq<Entity>)
    ensures es == Categorised(cfg, reported)
  {
    es := [];
    for i := 0 to |reported|
      invariant |es| == i
      invariant forall k :: 0 <= k < i ==>
                  es[k] == Entity(reported[k].matchedText, EntityType(cfg, reported[k].freebaseTypes, reported[k].dbpediaTypes))
    {
      var kind := GetEntityType(cfg, reported[i].freebaseTypes, reported[i].dbpediaTypes);
      es := es + [Entity(reported[i].matchedText, kind)];
    }
    assert es == Categorised(cfg, reported);
  }

  // ---------------------------------------------------------------------
  // Splitting the chunks

  /** Lines 55-59: each entity tags its lower-cased text with its lower-cased category. */
  function EntityRequests(es: seq<Entity>): (r: seq<Request>)
    ensures |r| == |es|
    ensures forall k :: 0 <= k < |es| ==>
              r[k] == Request(Text.Lower(es[k].text), Meaning(Some(Text.Lower(es[k].kind)), Some(Text.Lower(es[k].text))), false)
  {
    seq(|es|, k requires 0 <= k < |es| =>
      Request(Text.Lower(es[k].text), Meaning(Some(Text.Lower(es[k].kind)), Some(Text.Lower(es[k].text))), false))
  }

  predicate IsVerb(w: Word)
  {
    w.penn == "VB" || w.penn == "VBP"
  }

  /** Line 65: some synonym, lower-cased, is the lower-cased word. */
  predicate Names(synonyms: seq<string>, word: string)
  {
    exists k :: 0 <= k < |synonyms| && Text.Lower(synonyms[k]) == Text.Lower(word)
  }

  /** Lines 64-70: every action some synonym of which is `word` tags the word with that action. */
  function ActionRequests(word: string, actions: seq<(string, seq<string>)>): seq<Request>
  {
    if actions == [] then []
    else
      var last := actions[|actions| - 1];
      ActionRequests(word, actions[..|actions| - 1]) +
      (if Names(last.1, word) then [Request(Text.Lower(word), Meaning(Some("action"), Some(last.0)), false)] else [])
  }

  /** Lines 62-70: the action requests of the verbs, word after word. */
  function WordRequests(words: seq<Word>, actions: seq<(string, seq<string>)>): seq<Request>
  {
    if words == [] then []
    else
      var last := words[|words| - 1];
      WordRequests(words[..|words| - 1], actions) + (if IsVerb(last) then ActionRequests(last.text, actions) else [])
  }

  /**
   * The verb loop. Without an "action" entry in the dictionary the first verb
   * raises a KeyError before any split.
   */
  function VerbStep(cs: seq<Chunk>, next: nat, words: seq<Word>, d: Dictionary): RunState
  {
    match Lookup(d, "action")
    case Some(actions) => Run(cs, next, WordRequests(words, actions))
    case None => RunState(!exists k :: 0 <= k < |words| && IsVerb(words[k]), cs, next)
  }

  /** Lines 55-70: the entity loop, then, unless it raised, the verb loop. */
  function HandleSpec(cs: seq<Chunk>, next: nat, cfg: Config, words: seq<Word>, es: seq<Entity>): RunState
  {
    var st := Run(cs, next, EntityRequests(es));
    if st.ok then VerbStep(st.chunks, st.nextId, words, cfg.dictionary) else st
  }

  /** Lines 58-59 and 69-70: look the text up and split the chunk found, whatever its meaning. */
  method SplitFound(chunks: Chunks, text: string, meaning: Meaning) returns (ok: bool)
    requires chunks.Valid()
    modifies chunks
    ensures chunks.Valid()
    ensures RunState(ok, chunks.chunks, chunks.nextId) ==
            Apply(old(chunks.chunks), old(chunks.nextId), Request(text, meaning, false))
  {
    ghost var cs := chunks.chunks;
    var id := chunks.FindChunkWithText(text);
    var outcome := chunks.SplitChunk(text, meaning, ById(id));
    ok := !outcome.Raised?;
  }

  lemma EntityRequestsStep(es: seq<Entity>, k: nat)
    requires k < |es|
    ensures EntityRequests(es[..k + 1]) == EntityRequests(es[..k]) + [EntityRequests(es)[k]]
  {
  }

  lemma EntityRequestsAppend(es: seq<Entity>, n: nat)
    requires n <= |es|
    ensures EntityRequests(es) == EntityRequests(es[..n]) + EntityRequests(es[n..])
  {
  }

  /** Lines 55-59. */
  method HandleEntities(chunks: Chunks, es: seq<Entity>) returns (ok: bool)
    requires chunks.Valid()
    modifies chunks
    ensures chunks.Valid()
    ensures RunState(ok, chunks.chunks, chunks.nextId) == Run(old(chunks.chunks), old(chunks.nextId), EntityRequests(es))
  {
    ghost var cs, next := chunks.chunks, chunks.nextId;
    var i := 0;
    while i < |es|
      invariant i <= |es|
      invariant chunks.Valid()
      invariant RunState(true, chunks.chunks, chunks.nextId) == Run(cs, next, EntityRequests(es[..i]))
    {
      var text := Text.Lower(es[i].text);
      var kind := Text.Lower(es[i].kind);
      ok := SplitFound(chunks, text, Meaning(Some(kind), Some(text)));
      EntityRequestsStep(es, i);
      RunSnoc(cs, next, EntityRequests(es[..i]), EntityRequests(es)[i]);
      if !ok {
        EntityRequestsAppend(es, i + 1);
        RunAppend(cs, next, EntityRequests(es[..i + 1]), EntityRequests(es[i + 1..]));
        return;
      }
      i := i + 1;
    }
    assert es[..i] == es;
    return true;
  }

  lemma {:induction false} ActionRequestsAppend(word: string, actions: seq<(string, seq<string>)>, n: nat)
    requires n <= |actions|
    ensures ActionRequests(word, actions) == ActionRequests(word, actions[..n]) + ActionRequests(word, actions[n..])
    decreases |actions|
  {
    if n < |actions| {
      var init := actions[..|actions| - 1];
      ActionRequestsAppend(word, init, n);
      assert init[..n] == actions[..n];
      assert actions[n..][..|actions[n..]| - 1] == init[n..];
    } else {
      assert actions[..n] == actions;
    }
  }

  lemma ActionRequestsStep(word: string, actions: seq<(string, seq<string>)>, j: nat)
    requires j < |actions|
    ensures ActionRequests(word, actions[..j + 1]) == ActionRequests(word, actions[..j]) +
              if Names(actions[j].1, word) then [Request(Text.Lower(word), Meaning(Some("action"), Some(actions[j].0)), false)] else []
  {
    assert actions[..j + 1][..j] == actions[..j];
  }

  lemma WordRequestsStep(words: seq<Word>, actions: seq<(string, seq<string>)>, i: nat)
    requires i < |words|
    ensures WordRequests(words[..i + 1], actions) == WordRequests(words[..i], actions) +
              if IsVerb(words[i]) then ActionRequests(words[i].text, actions) else []
  {
    assert words[..i + 1][..i] == words[..i];
  }

  /** Line 65: whether a lower-cased synonym equals the lower-cased word. */
  method NamedBy(synonyms: seq<string>, word: string) returns (found: bool)
    ensures found == Names(synonyms, word)
  {
    var lowered := Text.Lower(word);
    for k := 0 to |synonyms|
      invariant forall j :: 0 <= j < k ==> Text.Lower(synonyms[j]) != lowered
    {
      if Text.Lower(synonyms[k]) == lowered {
        return true;
      }
    }
    return false;
  }

  /** Lines 64-70 for one verb. */
  method HandleVerb(chunks: Chunks, word: string, actions: seq<(string, seq<string>)>) returns (ok: bool)
    requires chunks.Valid()
    modifies chunks
    ensures chunks.Valid()
    ensures RunState(ok, chunks.chunks, chunks.nextId) ==
            Run(old(chunks.chunks), old(chunks.nextId), ActionRequests(word, actions))
  {
    ghost var cs, next := chunks.chunks, chunks.nextId;
    var j := 0;
    while j < |actions|
      invariant j <= |actions|
      invariant chunks.Valid()
      invariant RunState(true, chunks.chunks, chunks.nextId) == Run(cs, next, ActionRequests(word, actions[..j]))
    {
      ActionRequestsStep(word, actions, j);
      var named := NamedBy(actions[j].1, word);
      if named {
        var text := Text.Lower(word);
        ok := SplitFound(chunks, text, Meaning(Some("action"), Some(actions[j].0)));
        RunSnoc(cs, next, ActionRequests(word, actions[..j]), Request(text, Meaning(Some("action"), Some(actions[j].0)), false));
        if !ok {
          ActionRequestsAppend(word, actions, j + 1);
          RunAppend(cs, next, ActionRequests(word, actions[..j + 1]), ActionRequests(word, actions[j + 1..]));
          return;
        }
        assert RunState(true, chunks.chunks, chunks.nextId) == Run(cs, next, ActionRequests(word, actions[..j + 1]));
      } else {
        assert ActionRequests(word, actions[..j + 1]) == ActionRequests(word, actions[..j]);
      }
      j := j + 1;
    }
    assert actions[..j] == actions;
    return true;
  }

  lemma {:induction false} WordRequestsAppend(words: seq<Word>, actions: seq<(string, seq<string>)>, n: nat)
    requires n <= |words|
    ensures WordRequests(words, actions) == WordRequests(words[..n], actions) + WordRequests(words[n..], actions)
    decreases |words|
  {
    if n < |words| {
      var init := words[..|words| - 1];
      WordRequestsAppend(init, actions, n);
      assert init[..n] == words[..n];
      assert words[n..][..|words[n..]| - 1] == init[n..];
    } else {
      assert words[..n] == words;
    }
  }

  /** One pass of the loop of lines 62-70, on word `i`: a verb (Penn tag VB or
      VBP) runs its action requests; after a raise the rest of the loop is
      skipped. */
  method HandleWord(chunks: Chunks, words: seq<Word>, actions: seq<(string, seq<string>)>, i: nat,
                    ghost cs: seq<Chunk>, ghost next: nat) returns (ok: bool)
    requires i < |words| && chunks.Valid()
    requires RunState(true, chunks.chunks, chunks.nextId) == Run(cs, next, WordRequests(words[..i], actions))
    modifies chunks
    ensures chunks.Valid()
    ensures RunState(ok, chunks.chunks, chunks.nextId) ==
            Run(cs, next, if ok then WordRequests(words[..i + 1], actions) else WordRequests(words, actions))
  {
    ok := true;
    WordRequestsStep(words, actions, i);
    if words[i].penn == "VB" || words[i].penn == "VBP" {
      ok := HandleVerb(chunks, words[i].text, actions);
      RunAppend(cs, next, WordRequests(words[..i], actions), ActionRequests(words[i].text, actions));
      if !ok {
        WordRequestsAppend(words, actions, i + 1);
        RunAppend(cs, next, WordRequests(words[..i + 1], actions), WordRequests(words[i + 1..], actions));
      }
    } else {
      assert WordRequests(words[..i + 1], actions) == WordRequests(words[..i], actions);
    }
  }

  /** Lines 62-70, given the dictionary's "action" entry. */
  method HandleWords(chunks: Chunks, words: seq<Word>, actions: seq<(string, seq<string>)>) returns (ok: bool)
    requires chunks.Valid()
    modifies chunks
    ensures chunks.Valid()
    ensures RunState(ok, chunks.chunks, chunks.nextId) ==
            Run(old(chunks.chunks), old(chunks.nextId), WordRequests(words, actions))
  {
    ghost var cs, next := chunks.chunks, chunks.nextId;
    var i := 0;
    while i < |words|
      invariant i <= |words|
      invariant chunks.Valid()
      invariant RunState(true, chunks.chunks, chunks.nextId) == Run(cs, next, WordRequests(words[..i], actions))
    {
      ok := HandleWord(chunks, words, actions, i, cs, next);
      if !ok {
        return;
      }
      i := i + 1;
    }
    assert words[..i] == words;
    return true;
  }

  /** The verb loop, raising KeyError at the first verb when the dictionary has no "action" entry. */
  method HandleVerbs(chunks: Chunks, words: seq<Word>, d: Dictionary) returns (ok: bool)
    requires chunks.Valid()
    modifies chunks
    ensures chunks.Valid()
    ensures RunState(ok, chunks.chunks, chunks.nextId) == VerbStep(old(chunks.chunks), old(chunks.nextId), words, d)
  {
    var actions := Lookup(d, "action");
    if actions.Some? {
      ok := HandleWords(chunks, words, actions.value);
    } else {
      ok := true;
      for i := 0 to |words|
        invariant forall k :: 0 <= k < i ==> !IsVerb(words[k])
      {
        if IsVerb(words[i]) {
          return false;
        }
      }
    }
  }

  /**
   * `handle` from the service's response on: the entities get their
   * categories, then split the chunks, then the verbs do. The result is false
   * when a split (or the dictionary lookup) raised.
   */
  method Handle(cfg: Config, intent: Intent, words: seq<Word>, reported: seq<Reported>) returns (ok: bool)
    requires intent.chunks.Valid()
    modifies intent.chunks
    ensures intent.chunks.Valid()
    ensures RunState(ok, intent.chunks.chunks, intent.chunks.nextId) ==
            HandleSpec(old(intent.chunks.chunks), old(intent.chunks.nextId), cfg, words, Categorised(cfg, reported))
  {
    var es := Entities(cfg, reported);
    ok := HandleEntities(intent.chunks, es);
    if ok {
      ok := HandleVerbs(intent.chunks, words, cfg.dictionary);
    }
  }

  /** The category chosen is "none" when no category of either file scores, and
      otherwise the first category (in ranking order) with the highest score. */
  lemma EntityTypeIsBest(cfg: Config, fb: seq<string>, db: seq<string>)
    ensures var order := Categories(cfg);
            (forall j :: 0 <= j < |order| ==> Score(cfg, fb, db, order[j]) == 0) ==> EntityType(cfg, fb, db) == "none"
    ensures var order := Categories(cfg);
            (exists j :: 0 <= j < |order| && Score(cfg, fb, db, order[j]) > 0) ==>
              exists k :: 0 <= k < |order| && order[k] == EntityType(cfg, fb, db) &&
                Score(cfg, fb, db, order[k]) > 0 &&
                (forall j :: 0 <= j < |order| ==> Score(cfg, fb, db, order[j]) <= Score(cfg, fb, db, order[k])) &&
                (forall j :: 0 <= j < k ==> Score(cfg, fb, db, order[j]) < Score(cfg, fb, db, order[k]))
  {
    BestIsFirstMaximum(cfg, fb, db, Categories(cfg));
  }

  /** Reported types that appear in no filter list give no category a point. */
  lemma {:induction false} UnfilteredScoresNothing(ts: seq<string>, f: Filters, u: string)
    requires forall i, k :: 0 <= i < |ts| && 0 <= k < |f| ==> ts[i] !in f[k].1
    ensures Matches(ts, f, u) == 0
    decreases |ts|
  {
    if ts != [] {
      UnfilteredScoresNothing(ts[..|ts| - 1], f, u);
      HitsOfUnfiltered(ts[|ts| - 1], f, u);
    }
  }

  lemma {:induction false} HitsOfUnfiltered(t: string, f: Filters, u: string)
    requires forall k :: 0 <= k < |f| ==> t !in f[k].1
    ensures Hits(t, f, u) == 0
    decreases |f|
  {
    if f != [] {
      HitsOfUnfiltered(t, f[..|f| - 1], u);
    }
  }

  /** A request of the verb loop tags a verb with an action one of whose synonyms names it. */
  lemma {:induction false} WordRequestsFrom(words: seq<Word>, actions: seq<(string, seq<string>)>, q: Request)
    returns (k: nat, a: nat)
    requires q in WordRequests(words, actions)
    ensures k < |words| && a < |actions| && IsVerb(words[k]) && Names(actions[a].1, words[k].text)
    ensures q == Request(Text.Lower(words[k].text), Meaning(Some("action"), Some(actions[a].0)), false)
    decreases |words|
  {
    var init := words[..|words| - 1];
    if q in WordRequests(init, actions) {
      k, a := WordRequestsFrom(init, actions, q);
    } else {
      k := |words| - 1;
      a := ActionRequestsFrom(words[k].text, actions, q);
    }
  }

  lemma {:induction false} ActionRequestsFrom(word: string, actions: seq<(string, seq<string>)>, q: Request)
    returns (a: nat)
    requires q in ActionRequests(word, actions)
    ensures a < |actions| && Names(actions[a].1, word)
    ensures q == Request(Text.Lower(word), Meaning(Some("action"), Some(actions[a].0)), false)
    decreases |actions|
  {
    if q in ActionRequests(word, actions[..|actions| - 1]) {
      a := ActionRequestsFrom(word, actions[..|actions| - 1], q);
    } else {
      a := |actions| - 1;
    }
  }

  /** `c` holds an entity's lower-cased text, tagged with its lower-cased category. */
  predicate EntityTagged(c: Chunk, es: seq<Entity>)
  {
    exists k :: 0 <= k < |es| && c.words == Text.Lower(es[k].text) &&
      c.meaning == Some(Meaning(Some(Text.Lower(es[k].kind)), Some(Text.Lower(es[k].text))))
  }

  /** `c` holds a lower-cased verb, tagged with an action one of whose synonyms names it. */
  predicate ActionTagged(c: Chunk, words: seq<Word>, d: Dictionary)
  {
    Lookup(d, "action").Some? &&
    var actions := Lookup(d, "action").value;
    exists k, a :: 0 <= k < |words| && 0 <= a < |actions| && IsVerb(words[k]) && Names(actions[a].1, words[k].text) &&
      c.words == Text.Lower(words[k].text) && c.meaning == Some(Meaning(Some("action"), Some(actions[a].0)))
  }

  /** After `handle`, every chunk was there before, has no meaning, or was tagged by an entity or a verb. */
  lemma HandleNewChunks(cs: seq<Chunk>, next: nat, cfg: Config, words: seq<Word>, es: seq<Entity>, c: Chunk)
    requires c in HandleSpec(cs, next, cfg, words, es).chunks
    ensures c in cs || c.meaning.None? || EntityTagged(c, es) || ActionTagged(c, words, cfg.dictionary)
  {
    var ereqs := EntityRequests(es);
    var st := Run(cs, next, ereqs);
    var inEntityRun := c in st.chunks;
    if !inEntityRun {
      var actions := Lookup(cfg.dictionary, "action").value;
      RunNewChunks(st.chunks, st.nextId, WordRequests(words, actions), c);
      if !(c in st.chunks || c.meaning.None?) {
        var wreqs := WordRequests(words, actions);
        var n :| 0 <= n < |wreqs| && c.words == wreqs[n].text && c.meaning == Some(wreqs[n].meaning);
        var k, a := WordRequestsFrom(words, actions, wreqs[n]);
      }
    } else {
      RunNewChunks(cs, next, ereqs, c);
    }
  }

  /** `handle` keeps chunk ids unique and below the next fresh id. */
  lemma HandleKeepsValid(cs: seq<Chunk>, next: nat, cfg: Config, words: seq<Word>, es: seq<Entity>)
    requires ValidList(cs, next)
    ensures ValidList(HandleSpec(cs, next, cfg, words, es).chunks, HandleSpec(cs, next, cfg, words, es).nextId)
  {
    var st := Run(cs, next, EntityRequests(es));
    RunKeepsValid(cs, next, EntityRequests(es));
    var actions := Lookup(cfg.dictionary, "action");
    if st.ok && actions.Some? {
      RunKeepsValid(st.chunks, st.nextId, WordRequests(words, actions.value));
    }
  }
}
