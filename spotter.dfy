/** The keyword spotter: a per-keyword count map and a set of the
    (text, start time) pairs already counted in the current utterance.
    `Spotter.Spot` walks the words of one transcript message, counting every
    pair it has not seen before; `SpotSpec` is the same step as a function of
    the old state and the message, and the lemmas below state what that step
    does to the counts, to the seen set and to the list of matches. */
module Spotting {
  import opened Wrappers
  import opened Transcript

  /** A word occurrence as the spotter identifies it: text and start time. */
  type WordId = (string, real)

  /** The Python exceptions `spot` can raise. */
  datatype Failure = KeyError(key: string) | AttributeError(name: string)

  /** The confidence threshold the constructor takes when none is given. */
  const DefaultConfidenceThreshold: real := 0.85

  // ---------------------------------------------------------------------
  // Reading one word

  predicate WellFormed(w: Word) {
    w.word.Some? && w.confidence.Some? && w.start.Some?
  }

  /** The exception raised while reading the fields of `w`: `word` is read
      first, then `confidence`, then `start`. */
  function MissingField(w: Word): (r: Option<Failure>)
    ensures r.None? <==> WellFormed(w)
  {
    if w.word.None? then Some(KeyError("word"))
    else if w.confidence.None? then Some(KeyError("confidence"))
    else if w.start.None? then Some(KeyError("start"))
    else None
  }

  function IdOf(w: Word): WordId
    requires WellFormed(w)
  {
    (w.word.value, w.start.value)
  }

  // ---------------------------------------------------------------------
  // One call of `spot`, as a function of the old state

  /** The state threaded through the words of one message: the count map,
      the seen set, the matches so far and the exception raised, if any.
      Whatever was changed before an exception stays changed. */
  datatype Tally = Tally(counts: map<string, int>, seen: set<WordId>,
                         matches: seq<string>, failure: Option<Failure>)

  /** One iteration of the loop over the words. A new pair is recorded in the
      seen set BEFORE its count is incremented, so an unknown text leaves its
      pair in the set when the increment raises. */
  function Visit(t: Tally, w: Word): (r: Tally)
    ensures t.failure.Some? ==> r == t
  {
    if t.failure.Some? then t
    else
      match MissingField(w)
      case Some(f) => t.(failure := Some(f))
      case None =>
        var id := IdOf(w);
        if id in t.seen then t
        else if id.0 !in t.counts then t.(seen := t.seen + {id}, failure := Some(KeyError(id.0)))
        else Tally(t.counts[id.0 := t.counts[id.0] + 1], t.seen + {id}, t.matches + [id.0], None)
  }

  /** The loop over `ws`, in order, stopping at the first exception. */
  function Scan(t: Tally, ws: seq<Word>): (r: Tally)
    ensures t.failure.Some? ==> r == t
    decreases |ws|
  {
    if ws == [] then t else Visit(Scan(t, ws[..|ws| - 1]), ws[|ws| - 1])
  }

  /** The words `spot` walks: those of the first alternative, with an absent
      `words` field read as the empty list. */
  function FirstWords(alternatives: seq<Alternative>): seq<Word>
    requires alternatives != []
  {
    alternatives[0].words.GetOr([])
  }

  /** The seen set `spot` starts from: a final message clears it first. */
  function StartSeen(seen: set<WordId>, msg: Message): set<WordId> {
    if msg.isFinal then {} else seen
  }

  /** The whole of one `spot` call on the state (counts, seen). */
  function SpotSpec(counts: map<string, int>, seen: set<WordId>, msg: Message): (r: Tally)
    ensures r.counts.Keys == counts.Keys
    ensures r.failure.Some? ==> r.failure.value.KeyError?
  {
    var start := Tally(counts, StartSeen(seen, msg), [], None);
    match msg.channel
    case None => start
    case Some(ch) =>
      match ch.alternatives
      case None => start.(failure := Some(KeyError("alternatives")))
      case Some(alternatives) =>
        if alternatives == [] then start
        else
          ScanKeys(start, FirstWords(alternatives));
          ScanRaisesKeyError(start, FirstWords(alternatives));
          Scan(start, FirstWords(alternatives))
  }

  /** What the caller of `spot` sees: the match list, or the exception. */
  function Outcome(t: Tally): Result<seq<string>, Failure> {
    match t.failure
    case None => Success(t.matches)
    case Some(f) => Failure(f)
  }

  /** The count map a new spotter starts from. */
  function InitialCounts(keywords: set<string>): map<string, int> {
    map k | k in keywords :: 0
  }

  // ---------------------------------------------------------------------
  // Reference definitions the step is compared with

  predicate AllWellFormed(ws: seq<Word>) {
    forall i :: 0 <= i < |ws| ==> WellFormed(ws[i])
  }

  function Ids(ws: seq<Word>): (ids: seq<WordId>)
    requires AllWellFormed(ws)
    ensures |ids| == |ws|
    ensures forall i :: 0 <= i < |ws| ==> ids[i] == IdOf(ws[i])
  {
    if ws == [] then [] else Ids(ws[..|ws| - 1]) + [IdOf(ws[|ws| - 1])]
  }

  /** The first occurrence of every pair of `ids` that is not in `seen`, in order. */
  function NewIds(seen: set<WordId>, ids: seq<WordId>): seq<WordId>
    decreases |ids|
  {
    if ids == [] then []
    else
      var init, last := ids[..|ids| - 1], ids[|ids| - 1];
      NewIds(seen, init) + (if last in seen || last in init then [] else [last])
  }

  function Texts(ids: seq<WordId>): (texts: seq<string>)
    ensures |texts| == |ids|
    ensures forall i :: 0 <= i < |ids| ==> texts[i] == ids[i].0
  {
    if ids == [] then [] else Texts(ids[..|ids| - 1]) + [ids[|ids| - 1].0]
  }

  /** `a` is `b` with some elements left out, the rest in their order. */
  predicate Subsequence<T(==)>(a: seq<T>, b: seq<T>)
    decreases |b|
  {
    if b == [] then a == []
    else
      Subsequence(a, b[..|b| - 1])
      || (a != [] && a[|a| - 1] == b[|b| - 1] && Subsequence(a[..|a| - 1], b[..|b| - 1]))
  }

  /** Walking `ws` from seen set `seen` raises nothing: every word has its
      fields, and every pair not seen before names a key of the count map. */
  predicate Spottable(keys: set<string>, seen: set<WordId>, ws: seq<Word>) {
    AllWellFormed(ws) && forall id :: id in NewIds(seen, Ids(ws)) ==> id.0 in keys
  }

  // ---------------------------------------------------------------------
  // Lemmas about the word loop

  /** The new pairs are exactly the pairs of `ids` outside `seen`. */
  lemma {:induction false} NewIdsMembers(seen: set<WordId>, ids: seq<WordId>)
    ensures forall x :: x in NewIds(seen, ids) <==> x in ids && x !in seen
    decreases |ids|
  {
    if ids != [] {
      var init, last := ids[..|ids| - 1], ids[|ids| - 1];
      NewIdsMembers(seen, init);
      assert ids == init + [last];
    }
  }

  /** No pair is new twice. */
  lemma {:induction false} NewIdsDistinct(seen: set<WordId>, ids: seq<WordId>)
    ensures forall i, j :: 0 <= i < j < |NewIds(seen, ids)| ==> NewIds(seen, ids)[i] != NewIds(seen, ids)[j]
    decreases |ids|
  {
    if ids != [] {
      var init, last := ids[..|ids| - 1], ids[|ids| - 1];
      NewIdsDistinct(seen, init);
      NewIdsMembers(seen, init);
    }
  }

  /** The new pairs keep the order of `ids`. */
  lemma {:induction false} NewIdsOrdered(seen: set<WordId>, ids: seq<WordId>)
    ensures Subsequence(NewIds(seen, ids), ids)
    decreases |ids|
  {
    if ids != [] {
      var init, last := ids[..|ids| - 1], ids[|ids| - 1];
      NewIdsOrdered(seen, init);
      var r0 := NewIds(seen, init);
      if last in seen || last in init {
        assert NewIds(seen, ids) == r0;
      } else {
        var r := NewIds(seen, ids);
        assert r == r0 + [last];
        assert r[..|r| - 1] == r0 && r[|r| - 1] == last;
      }
    }
  }

  /** Deduplication and order: the new pairs are exactly the pairs of `ids`
      outside `seen`, none of them twice, in the order of `ids`. */
  lemma NewIdsSpec(seen: set<WordId>, ids: seq<WordId>)
    ensures forall x :: x in NewIds(seen, ids) <==> x in ids && x !in seen
    ensures forall i, j :: 0 <= i < j < |NewIds(seen, ids)| ==> NewIds(seen, ids)[i] != NewIds(seen, ids)[j]
    ensures Subsequence(NewIds(seen, ids), ids)
  {
    NewIdsMembers(seen, ids);
    NewIdsDistinct(seen, ids);
    NewIdsOrdered(seen, ids);
  }

  /** One word either changes neither the matches nor the counts, or
      appends one key to the matches and adds 1 to that key's count. */
  lemma VisitCounts(s: Tally, w: Word)
    ensures Visit(s, w).counts.Keys == s.counts.Keys
    ensures || (Visit(s, w).matches == s.matches && Visit(s, w).counts == s.counts)
            || (exists x :: x in s.counts && Visit(s, w).matches == s.matches + [x]
                             && Visit(s, w).counts == s.counts[x := s.counts[x] + 1])
  {
    if s.failure.None? && MissingField(w).None? {
      var id := IdOf(w);
      if id !in s.seen && id.0 in s.counts {
        var x := id.0;
        assert Visit(s, w).matches == s.matches + [x];
        assert Visit(s, w).counts == s.counts[x := s.counts[x] + 1];
      }
    }
  }

  /** `c1` is `c0` with every key grown by its number of occurrences in `d`. */
  ghost predicate GrownBy(c0: map<string, int>, c1: map<string, int>, d: seq<string>) {
    && c1.Keys == c0.Keys
    && (forall m :: m in d ==> m in c0)
    && forall k :: k in c0 ==> c1[k] == c0[k] + multiset(d)[k]
  }

  lemma GrownByStep(c0: map<string, int>, c1: map<string, int>, d: seq<string>, x: string)
    requires GrownBy(c0, c1, d) && x in c1
    ensures GrownBy(c0, c1[x := c1[x] + 1], d + [x])
  {
    forall k | k in c0
      ensures c1[x := c1[x] + 1][k] == c0[k] + multiset(d + [x])[k]
    {
      assert multiset(d + [x]) == multiset(d) + multiset{x};
    }
  }

  /** Counting: the key set never changes, the matches already made stay,
      every new match is a key, and every key grows by the number of times it
      was newly matched. This holds also when the walk raises. */
  lemma {:induction false} ScanCounts(t: Tally, ws: seq<Word>)
    ensures |t.matches| <= |Scan(t, ws).matches|
    ensures Scan(t, ws).matches[..|t.matches|] == t.matches
    ensures GrownBy(t.counts, Scan(t, ws).counts, Scan(t, ws).matches[|t.matches|..])
    decreases |ws|
  {
    if ws == [] {
      assert t.matches[|t.matches|..] == [];
    } else {
      var init, last := ws[..|ws| - 1], ws[|ws| - 1];
      ScanCounts(t, init);
      var s := Scan(t, init);
      var d := s.matches[|t.matches|..];
      assert s.matches == t.matches + d;
      VisitCounts(s, last);
      var u := Visit(s, last);
      if u.matches != s.matches {
        var x :| x in s.counts && u.matches == s.matches + [x] && u.counts == s.counts[x := s.counts[x] + 1];
        assert u.matches == t.matches + (d + [x]);
        assert u.matches[|t.matches|..] == d + [x];
        GrownByStep(t.counts, s.counts, d, x);
      }
    }
  }

  lemma {:induction false} IdsInit(ws: seq<Word>)
    requires ws != [] && AllWellFormed(ws)
    ensures AllWellFormed(ws[..|ws| - 1])
    ensures Ids(ws) == Ids(ws[..|ws| - 1]) + [IdOf(ws[|ws| - 1])]
    ensures Ids(ws)[..|ws| - 1] == Ids(ws[..|ws| - 1])
  {
  }

  /** The key set of the count map never changes. */
  lemma ScanKeys(t: Tally, ws: seq<Word>)
    ensures Scan(t, ws).counts.Keys == t.counts.Keys
  {
    ScanCounts(t, ws);
  }

  /** The one-set loop raises only KeyError: for a missing field or an unknown text. */
  lemma {:induction false} ScanRaisesKeyError(t: Tally, ws: seq<Word>)
    requires t.failure.None?
    ensures Scan(t, ws).failure.Some? ==> Scan(t, ws).failure.value.KeyError?
    decreases |ws|
  {
    if ws != [] {
      ScanRaisesKeyError(t, ws[..|ws| - 1]);
    }
  }

  /** The new pairs of a list extend those of its prefix by at most its last pair. */
  lemma NewIdsSnoc(seen: set<WordId>, ws: seq<Word>)
    requires ws != [] && AllWellFormed(ws)
    ensures AllWellFormed(ws[..|ws| - 1])
    ensures var init, id := Ids(ws[..|ws| - 1]), IdOf(ws[|ws| - 1]);
      NewIds(seen, Ids(ws)) == NewIds(seen, init) + (if id in seen || id in init then [] else [id])
  {
    IdsInit(ws);
  }

  /** A walk that raises nothing started without an exception over well
      formed words whose new pairs are all keys; the seen set gained the
      pairs of the words, and the matches are the texts of the new pairs. */
  lemma {:induction false} ScanSucceeds(t: Tally, ws: seq<Word>)
    requires Scan(t, ws).failure.None?
    ensures t.failure.None? && Spottable(t.counts.Keys, t.seen, ws)
    ensures forall x :: x in Scan(t, ws).seen <==> x in t.seen || x in Ids(ws)
    ensures Scan(t, ws).matches == t.matches + Texts(NewIds(t.seen, Ids(ws)))
    decreases |ws|
  {
    if ws == [] {
      assert Ids(ws) == [];
    } else {
      var init, last := ws[..|ws| - 1], ws[|ws| - 1];
      var s := Scan(t, init);
      assert Scan(t, ws) == Visit(s, last);
      assert s.failure.None? && WellFormed(last);
      ScanSucceeds(t, init);
      ScanKeys(t, init);
      AllWellFormedSnoc(ws);
      IdsInit(ws);
      var id := IdOf(last);
      SpottableSnoc(t.counts.Keys, t.seen, ws);
      if id in s.seen {
        assert Scan(t, ws) == s;
        SeenStep(t.seen, s.seen, Ids(init), id);
      } else {
        FreshStep(t, s, Ids(init), id, NewIds(t.seen, Ids(init)));
      }
    }
  }

  lemma AllWellFormedSnoc(ws: seq<Word>)
    requires ws != [] && AllWellFormed(ws[..|ws| - 1]) && WellFormed(ws[|ws| - 1])
    ensures AllWellFormed(ws)
  {
    assert forall i :: 0 <= i < |ws| - 1 ==> ws[..|ws| - 1][i] == ws[i];
  }

  /** Appending a well-formed word keeps the walk spottable when its pair is
      old or names a key. */
  lemma SpottableSnoc(keys: set<string>, seen: set<WordId>, ws: seq<Word>)
    requires ws != [] && AllWellFormed(ws)
    requires Spottable(keys, seen, ws[..|ws| - 1])
    requires IdOf(ws[|ws| - 1]) in seen || IdOf(ws[|ws| - 1]) in Ids(ws[..|ws| - 1]) || IdOf(ws[|ws| - 1]).0 in keys
    ensures Spottable(keys, seen, ws)
  {
    NewIdsSnoc(seen, ws);
  }

  lemma SeenStep(seen0: set<WordId>, seen: set<WordId>, ids: seq<WordId>, id: WordId)
    requires forall x :: x in seen <==> x in seen0 || x in ids
    requires id in seen
    ensures NewIds(seen0, ids + [id]) == NewIds(seen0, ids)
    ensures forall x :: x in seen <==> x in seen0 || x in ids + [id]
  {
    assert (ids + [id])[..|ids|] == ids;
  }

  lemma FreshStep(t: Tally, s: Tally, ids: seq<WordId>, id: WordId, n0: seq<WordId>)
    requires forall x :: x in s.seen <==> x in t.seen || x in ids
    requires s.matches == t.matches + Texts(n0)
    requires id !in s.seen && id.0 in s.counts
    ensures forall x :: x in s.seen + {id} <==> x in t.seen || x in ids + [id]
    ensures s.matches + [id.0] == t.matches + Texts(n0 + [id])
  {
    assert (n0 + [id])[..|n0|] == n0;
  }

  /** Conversely, such a walk raises nothing. */
  lemma {:induction false} ScanSpottable(t: Tally, ws: seq<Word>)
    requires t.failure.None? && Spottable(t.counts.Keys, t.seen, ws)
    ensures Scan(t, ws).failure.None?
    decreases |ws|
  {
    if ws != [] {
      var init, last := ws[..|ws| - 1], ws[|ws| - 1];
      NewIdsSnoc(t.seen, ws);
      assert Spottable(t.counts.Keys, t.seen, init);
      ScanSpottable(t, init);
      ScanSucceeds(t, init);
      ScanKeys(t, init);
    }
  }

  /** When the walk raises nothing, and exactly when: every word is well
      formed and every new pair is a configured keyword. Then the seen set
      gains exactly the pairs of `ws`, and the matches are the texts of the
      new pairs, in order. */
  lemma ScanSuccess(t: Tally, ws: seq<Word>)
    ensures Scan(t, ws).failure.None? <==> t.failure.None? && Spottable(t.counts.Keys, t.seen, ws)
    ensures Scan(t, ws).failure.None? ==>
      && (forall x :: x in Scan(t, ws).seen <==> x in t.seen || x in Ids(ws))
      && Scan(t, ws).matches == t.matches + Texts(NewIds(t.seen, Ids(ws)))
  {
    if Scan(t, ws).failure.None? {
      ScanSucceeds(t, ws);
    } else if t.failure.None? && Spottable(t.counts.Keys, t.seen, ws) {
      ScanSpottable(t, ws);
    }
  }

  /** Once the walk has raised, the rest of the words change nothing. */
  lemma {:induction false} ScanStops(t: Tally, ws: seq<Word>, j: nat)
    requires j <= |ws|
    requires Scan(t, ws[..j]).failure.Some?
    ensures Scan(t, ws) == Scan(t, ws[..j])
    decreases |ws|
  {
    if j == |ws| {
      assert ws[..j] == ws;
    } else {
      var init := ws[..|ws| - 1];
      assert init[..j] == ws[..j];
      ScanStops(t, init, j);
    }
  }

  /** Only the presence of `confidence` matters: its value is never compared. */
  lemma {:induction false} ScanIgnoresConfidence(t: Tally, ws: seq<Word>, vs: seq<Word>)
    requires |ws| == |vs|
    requires forall i :: 0 <= i < |ws| ==>
      ws[i].word == vs[i].word && ws[i].start == vs[i].start && ws[i].confidence.Some? == vs[i].confidence.Some?
    ensures Scan(t, ws) == Scan(t, vs)
    decreases |ws|
  {
    if ws != [] {
      ScanIgnoresConfidence(t, ws[..|ws| - 1], vs[..|vs| - 1]);
    }
  }

  // ---------------------------------------------------------------------
  // Lemmas about one call of `spot`

  /** A new spotter has a zero count for every configured keyword and no other key. */
  lemma InitialCountsZero(keywords: set<string>)
    ensures InitialCounts(keywords).Keys == keywords
    ensures forall k :: k in InitialCounts(keywords) ==> InitialCounts(keywords)[k] == 0
  {
  }

  /** A final message clears the seen set before anything else: the outcome
      does not depend on what was seen before it. */
  lemma SpotFinalForgets(counts: map<string, int>, seen1: set<WordId>, seen2: set<WordId>, msg: Message)
    requires msg.isFinal
    ensures SpotSpec(counts, seen1, msg) == SpotSpec(counts, seen2, msg)
  {
  }

  /** No channel, or an empty alternatives list: no matches, counts
      unchanged, and the seen set cleared if and only if the message is final. */
  lemma SpotNoTranscript(counts: map<string, int>, seen: set<WordId>, msg: Message)
    requires msg.channel.None? || msg.channel.value.alternatives == Some([])
    ensures SpotSpec(counts, seen, msg) == Tally(counts, if msg.isFinal then {} else seen, [], None)
  {
  }

  /** A channel without an `alternatives` key raises KeyError, after the clear. */
  lemma SpotMissingAlternatives(counts: map<string, int>, seen: set<WordId>, msg: Message)
    requires msg.channel.Some? && msg.channel.value.alternatives.None?
    ensures SpotSpec(counts, seen, msg) == Tally(counts, StartSeen(seen, msg), [], Some(KeyError("alternatives")))
  {
  }

  /** Only the first alternative is examined, and an absent `words` field is an empty list. */
  lemma SpotFirstAlternativeOnly(counts: map<string, int>, seen: set<WordId>, isFinal: bool,
                                 first: Alternative, rest1: seq<Alternative>, rest2: seq<Alternative>)
    ensures SpotSpec(counts, seen, Message(isFinal, Some(Channel(Some([first] + rest1)))))
         == SpotSpec(counts, seen, Message(isFinal, Some(Channel(Some([first] + rest2)))))
    ensures SpotSpec(counts, seen, Message(isFinal, Some(Channel(Some([Alternative(None)] + rest1)))))
         == SpotSpec(counts, seen, Message(isFinal, Some(Channel(Some([Alternative(Some([])) ] + rest2)))))
  {
  }

  /** Counts never decrease: every key keeps its place and grows by the
      number of times it appears among the matches, and every match is a key. */
  lemma SpotCounts(counts: map<string, int>, seen: set<WordId>, msg: Message)
    ensures SpotSpec(counts, seen, msg).counts.Keys == counts.Keys
    ensures forall m :: m in SpotSpec(counts, seen, msg).matches ==> m in counts
    ensures forall k :: k in counts ==>
      SpotSpec(counts, seen, msg).counts[k] == counts[k] + multiset(SpotSpec(counts, seen, msg).matches)[k]
  {
    var start := Tally(counts, StartSeen(seen, msg), [], None);
    if msg.channel.Some? && msg.channel.value.alternatives.Some? && msg.channel.value.alternatives.value != [] {
      var ws := FirstWords(msg.channel.value.alternatives.value);
      ScanCounts(start, ws);
      assert Scan(start, ws).matches[|start.matches|..] == Scan(start, ws).matches;
    }
  }

  /** The spotter's invariant survives a call: the keys stay the configured
      keywords, no count becomes negative, and no count decreases. */
  lemma SpotKeepsCounts(keywords: set<string>, counts: map<string, int>, seen: set<WordId>, msg: Message)
    requires counts.Keys == keywords && forall k :: k in counts ==> counts[k] >= 0
    ensures SpotSpec(counts, seen, msg).counts.Keys == keywords
    ensures forall k :: k in counts ==> counts[k] <= SpotSpec(counts, seen, msg).counts[k]
  {
    SpotCounts(counts, seen, msg);
  }

  /** One more word extends the loop by one iteration. */
  lemma ScanStep(t: Tally, ws: seq<Word>, i: nat)
    requires i < |ws|
    ensures Scan(t, ws[..i + 1]) == Visit(Scan(t, ws[..i]), ws[i])
  {
    assert ws[..i + 1][..i] == ws[..i];
  }

  /** Walking the first alternative's words: the call raises nothing exactly
      when every word is well formed and every pair new to this utterance is
      a configured keyword; then the seen set gains the message's pairs and
      the matches are the texts of the new pairs, each once, in word order. */
  lemma SpotWalk(counts: map<string, int>, seen: set<WordId>, msg: Message, alternatives: seq<Alternative>)
    requires msg.channel.Some? && msg.channel.value.alternatives == Some(alternatives) && alternatives != []
    ensures Outcome(SpotSpec(counts, seen, msg)).Success?
        <==> Spottable(counts.Keys, StartSeen(seen, msg), FirstWords(alternatives))
    ensures Outcome(SpotSpec(counts, seen, msg)).Success? ==>
      var ws := FirstWords(alternatives);
      && (forall x :: x in SpotSpec(counts, seen, msg).seen <==> x in StartSeen(seen, msg) || x in Ids(ws))
      && SpotSpec(counts, seen, msg).matches == Texts(NewIds(StartSeen(seen, msg), Ids(ws)))
  {
    ScanSuccess(Tally(counts, StartSeen(seen, msg), [], None), FirstWords(alternatives));
  }

  /** After a final message that raises nothing, the seen set holds exactly
      that message's pairs. */
  lemma SpotFinalSeen(counts: map<string, int>, seen: set<WordId>, msg: Message, alternatives: seq<Alternative>)
    requires msg.isFinal
    requires msg.channel.Some? && msg.channel.value.alternatives == Some(alternatives) && alternatives != []
    requires Outcome(SpotSpec(counts, seen, msg)).Success?
    ensures AllWellFormed(FirstWords(alternatives))
    ensures forall x :: x in SpotSpec(counts, seen, msg).seen <==> x in Ids(FirstWords(alternatives))
  {
    SpotWalk(counts, seen, msg, alternatives);
  }

  /** At any position of the loop, a new pair whose text is not a key raises
      KeyError on the increment: the pair is already in the seen set, and the
      counts and matches are those the earlier words left. */
  lemma ScanUnknownKeyword(t: Tally, ws: seq<Word>, i: nat)
    requires i < |ws| && Scan(t, ws[..i]).failure.None? && WellFormed(ws[i])
    requires IdOf(ws[i]) !in Scan(t, ws[..i]).seen && IdOf(ws[i]).0 !in Scan(t, ws[..i]).counts
    ensures Scan(t, ws).failure == Some(KeyError(IdOf(ws[i]).0))
    ensures Scan(t, ws).counts == Scan(t, ws[..i]).counts
    ensures Scan(t, ws).matches == Scan(t, ws[..i]).matches
    ensures Scan(t, ws).seen == Scan(t, ws[..i]).seen + {IdOf(ws[i])}
  {
    ScanStep(t, ws, i);
    ScanStops(t, ws, i + 1);
  }

  /** The same for one call of `spot`: if the words before position `i`
      raise nothing and the word at `i` is a new pair whose text is not a
      configured keyword, the call raises KeyError(text); the seen set holds
      the earlier pairs and this one, and every key keeps the increments the
      earlier words gave it. */
  lemma SpotUnknownKeyword(counts: map<string, int>, seen: set<WordId>, msg: Message,
                           alternatives: seq<Alternative>, i: nat)
    requires msg.channel.Some? && msg.channel.value.alternatives == Some(alternatives) && alternatives != []
    requires i < |FirstWords(alternatives)|
    requires Spottable(counts.Keys, StartSeen(seen, msg), FirstWords(alternatives)[..i])
    requires WellFormed(FirstWords(alternatives)[i]) && IdOf(FirstWords(alternatives)[i]).0 !in counts
    requires IdOf(FirstWords(alternatives)[i]) !in StartSeen(seen, msg)
    requires IdOf(FirstWords(alternatives)[i]) !in Ids(FirstWords(alternatives)[..i])
    ensures var ws := FirstWords(alternatives);
      var t := SpotSpec(counts, seen, msg);
      var earlier := Ids(ws[..i]);
      && t.failure == Some(KeyError(IdOf(ws[i]).0))
      && (forall x :: x in t.seen <==> x in StartSeen(seen, msg) || x in earlier || x == IdOf(ws[i]))
      && t.counts.Keys == counts.Keys
      && forall k :: k in counts ==>
           t.counts[k] == counts[k] + multiset(Texts(NewIds(StartSeen(seen, msg), earlier)))[k]
  {
    var ws := FirstWords(alternatives);
    var start := Tally(counts, StartSeen(seen, msg), [], None);
    ScanSpottable(start, ws[..i]);
    ScanSucceeds(start, ws[..i]);
    ScanKeys(start, ws[..i]);
    ScanUnknownKeyword(start, ws, i);
    SpotCounts(counts, seen, msg);
  }

  // ---------------------------------------------------------------------
  // Two transcripts of the configured keywords

  const SampleKeywords: set<string> := {"venezuela", "fire", "emergency", "president", "china"}

  function OneWord(isFinal: bool, text: string, start: real): Message {
    Message(isFinal, Some(Channel(Some([Alternative(Some([Word(Some(text), Some(start), Some(0.9))]))]))))
  }

  /** An interim "venezuela" at 12.3 counts once; the final message that
      re-delivers the same pair counts it again, because the clear comes
      first; afterwards the seen set holds just that pair. */
  lemma FinalRedeliveryCountsAgain()
    ensures var t1 := SpotSpec(InitialCounts(SampleKeywords), {}, OneWord(false, "venezuela", 12.3));
      var t2 := SpotSpec(t1.counts, t1.seen, OneWord(true, "venezuela", 12.3));
      && t1.matches == ["venezuela"] && t1.counts["venezuela"] == 1
      && t2.matches == ["venezuela"] && t2.counts["venezuela"] == 2
      && t2.seen == {("venezuela", 12.3)}
  {
  }

  /** "fires" is not mapped to "fire": the text is the key, so it raises. */
  lemma PluralIsNotMapped()
    ensures Outcome(SpotSpec(InitialCounts(SampleKeywords), {}, OneWord(false, "fires", 5.0)))
         == Failure(KeyError("fires"))
  {
  }

  // ---------------------------------------------------------------------
  // `spot` as written: the loop reads `self.seen_in_utterance`, an attribute
  // that no method ever assigns.

  function SpotAsWritten(counts: map<string, int>, seen: set<WordId>, msg: Message): (r: Tally)
    ensures r.counts == counts && r.seen == StartSeen(seen, msg) && r.matches == []
    ensures r.failure.None? <==>
      msg.channel.None? || (msg.channel.value.alternatives.Some?
        && (msg.channel.value.alternatives.value == [] || FirstWords(msg.channel.value.alternatives.value) == []))
  {
    var start := Tally(counts, StartSeen(seen, msg), [], None);
    match msg.channel
    case None => start
    case Some(ch) =>
      match ch.alternatives
      case None => start.(failure := Some(KeyError("alternatives")))
      case Some(alternatives) =>
        if alternatives == [] || FirstWords(alternatives) == [] then start
        else
          match MissingField(FirstWords(alternatives)[0])
          case Some(f) => start.(failure := Some(f))
          case None => start.(failure := Some(AttributeError("seen_in_utterance")))
  }

  /** As written, any message whose first word is well formed raises
      AttributeError and counts nothing, where the one-set spotter counts a
      configured keyword. */
  lemma AsWrittenNeverCounts(counts: map<string, int>, seen: set<WordId>, isFinal: bool, w: Word, rest: seq<Word>)
    requires WellFormed(w) && IdOf(w).0 in counts
    requires isFinal || IdOf(w) !in seen
    ensures var msg := Message(isFinal, Some(Channel(Some([Alternative(Some([w] + rest))]))));
      && SpotAsWritten(counts, seen, msg).failure == Some(AttributeError("seen_in_utterance"))
      && SpotAsWritten(counts, seen, msg).counts == counts
      && |SpotSpec(counts, seen, msg).matches| >= 1
      && SpotSpec(counts, seen, msg).matches[0] == IdOf(w).0
  {
    var msg := Message(isFinal, Some(Channel(Some([Alternative(Some([w] + rest))]))));
    var start := Tally(counts, StartSeen(seen, msg), [], None);
    var ws := [w] + rest;
    assert ws[..1] == [w];
    assert Scan(start, [w]) == Visit(start, w) by {
      assert [w][..0] == [];
    }
    ScanPrefix(start, ws, 1);
  }

  /** The matches after a prefix of the words stay at the front. */
  lemma {:induction false} ScanPrefix(t: Tally, ws: seq<Word>, j: nat)
    requires j <= |ws|
    ensures |Scan(t, ws[..j]).matches| <= |Scan(t, ws).matches|
    ensures Scan(t, ws).matches[..|Scan(t, ws[..j]).matches|] == Scan(t, ws[..j]).matches
    decreases |ws|
  {
    if j == |ws| {
      assert ws[..j] == ws;
    } else {
      var init := ws[..|ws| - 1];
      assert init[..j] == ws[..j];
      ScanPrefix(t, init, j);
      ScanCounts(Scan(t, init), [ws[|ws| - 1]]);
      assert [ws[|ws| - 1]][..0] == [];
    }
  }

  // ---------------------------------------------------------------------
  // The spotter object

  class Spotter {
    const keywords: set<string>
    const threshold: real
    var counts: map<string, int>
    var seen: set<WordId>

    /** Every configured keyword, and nothing else, has a count, and no count is negative. */
    ghost predicate Valid()
      reads this
    {
      counts.Keys == keywords && forall k :: k in counts ==> counts[k] >= 0
    }

    /** `keywordThresholds` is accepted and not kept; `confidenceThreshold` is kept and never read. */
    constructor (keywords: set<string>, keywordThresholds: map<string, real>,
                 confidenceThreshold: real := DefaultConfidenceThreshold)
      ensures Valid()
      ensures this.keywords == keywords && threshold == confidenceThreshold
      ensures counts.Keys == keywords && forall k :: k in counts ==> counts[k] == 0
      ensures seen == {}
    {
      this.keywords := keywords;
      threshold := confidenceThreshold;
      counts := InitialCounts(keywords);
      seen := {};
    }

    /** One transcript message: returns the texts newly counted, in word
        order, or the exception the source raises; the state is left as the
        source leaves it, also when it raises. */
    method Spot(msg: Message) returns (r: Result<seq<string>, Failure>)
      requires Valid()
      modifies this
      ensures Valid()
      ensures var t := SpotSpec(old(counts), old(seen), msg);
        counts == t.counts && seen == t.seen && r == Outcome(t)
      ensures forall k :: k in old(counts) ==> old(counts)[k] <= counts[k]
    {
      SpotKeepsCounts(keywords, counts, seen, msg);
      if msg.isFinal {
        seen := {};
      }
      if msg.channel.None? {
        return Success([]);
      }
      var alternatives := msg.channel.value.alternatives;
      if alternatives.None? {
        return Failure(KeyError("alternatives"));
      }
      if alternatives.value == [] {
        return Success([]);
      }
      r := Walk(FirstWords(alternatives.value));
    }

    /** The loop over the words of the first alternative: every pair not seen
        yet is added to the seen set, counted, and appended to the matches,
        until a word raises. */
    method Walk(words: seq<Word>) returns (r: Result<seq<string>, Failure>)
      modifies this
      ensures var t := Scan(Tally(old(counts), old(seen), [], None), words);
        counts == t.counts && seen == t.seen && r == Outcome(t)
    {
      var matches: seq<string> := [];
      var failure: Option<Failure> := None;
      ghost var start := Tally(counts, seen, [], None);
      assert words[..0] == [];
      var i := 0;
      while i < |words| && failure.None?
        invariant 0 <= i <= |words|
        invariant Scan(start, words[..i]) == Tally(counts, seen, matches, failure)
      {
        ScanStep(start, words, i);
        var w := words[i];
        if w.word.None? {
          failure := Some(KeyError("word"));
        } else if w.confidence.None? {
          failure := Some(KeyError("confidence"));
        } else if w.start.None? {
          failure := Some(KeyError("start"));
        } else {
          var text := w.word.value;
          var id := (text, w.start.value);
          if id !in seen {
            seen := seen + {id};
            if text in counts {
              counts := counts[text := counts[text] + 1];
              matches := matches + [text];
            } else {
              failure := Some(KeyError(text));
            }
          }
        }
        i := i + 1;
      }
      if failure.Some? {
        ScanStops(start, words, i);
        return Failure(failure.value);
      }
      assert words[..|words|] == words;
      return Success(matches);
    }
  }
}
