/**
 * The streaming variant of id merging: every batch is enriched from what was
 * seen before it and sent at once.  It never invents an id: whatever it sends
 * is justified by the component the batch merge would compute on the results
 * received so far.  And it misses none it can see: a result gets every key that
 * was sent with a result of an earlier batch sharing one of its id strings.
 */
module StreamEnrich {
  import opened Graphs
  import opened IdMerge
  import opened Prelude
  import IdMergeLaws

  /** ids after looking through the seen ids in order, growing on each match. */
  function Absorb(ids: Ids, seen: seq<Ids>): Ids {
    if seen == [] then ids
    else
      var soFar := Absorb(ids, seen[..|seen| - 1]);
      var last := seen[|seen| - 1];
      if HasCommonId(soFar, last) then Merge(soFar, last) else soFar
  }

  function Enriched(w: Wrapper, seen: seq<Ids>): Wrapper {
    if w.ids.Some? then ApplyIds(w, Absorb(w.ids.value, seen)) else w
  }

  function EnrichedAll(ws: seq<Wrapper>, seen: seq<Ids>): (out: seq<Wrapper>)
    ensures |out| == |ws|
    ensures forall i :: 0 <= i < |ws| ==> out[i] == Enriched(ws[i], seen)
  {
    seq(|ws|, i requires 0 <= i < |ws| => Enriched(ws[i], seen))
  }

  /** The ids of the results that carry any, in order. */
  function CarriedIds(ws: seq<Wrapper>): seq<Ids> {
    if ws == [] then []
    else CarriedIds(ws[..|ws| - 1]) + (if ws[|ws| - 1].ids.Some? then [ws[|ws| - 1].ids.value] else [])
  }

  /** One result's ids, growing with every seen id string in common. */
  method AbsorbSeen(ids: Ids, seenIds: seq<Ids>) returns (resultIds: Ids, enriched: bool)
    ensures resultIds == Absorb(ids, seenIds)
    ensures !enriched ==> resultIds == ids
  {
    resultIds, enriched := ids, false;
    for s := 0 to |seenIds|
      invariant resultIds == Absorb(ids, seenIds[..s])
      invariant !enriched ==> resultIds == ids
    {
      assert seenIds[..s + 1][..s] == seenIds[..s];
      if HasCommonId(resultIds, seenIds[s]) {
        resultIds := Merge(resultIds, seenIds[s]);
        enriched := true;
      }
    }
    assert seenIds[..|seenIds|] == seenIds;
  }

  lemma CarriedNext(ws: seq<Wrapper>, w: Wrapper)
    ensures CarriedIds(ws + [w]) == CarriedIds(ws) + if w.ids.Some? then [w.ids.value] else []
  {
    assert (ws + [w])[..|ws|] == ws;
  }

  lemma EnrichedIs(w: Wrapper, seen: seq<Ids>)
    ensures w.ids.None? ==> Enriched(w, seen) == w
    ensures w.ids.Some? ==> Enriched(w, seen) == ApplyIds(w, Absorb(w.ids.value, seen))
    ensures w.ids.Some? ==> ApplyIds(w, w.ids.value) == w
    ensures w.ids.Some? ==> Enriched(w, seen).ids.Some? && Enriched(w, seen).ids.value == Absorb(w.ids.value, seen)
  {
    hide Absorb;
  }

  /** One result, and the ids it carries now, if any. */
  method EnrichOne(result: Wrapper, seenIds: seq<Ids>) returns (out: Wrapper, carried: seq<Ids>)
    ensures out == Enriched(result, seenIds)
    ensures carried == if out.ids.Some? then [out.ids.value] else []
  {
    EnrichedIs(result, seenIds);
    out, carried := result, [];
    if result.ids.Some? {
      var resultIds, enriched := AbsorbSeen(result.ids.value, seenIds);
      if enriched {
        out := ApplyIds(result, resultIds);
      }
      carried := [resultIds];
    }
  }

  method EnrichFromSeen(results: seq<Wrapper>, seenIds: seq<Ids>) returns (out: seq<Wrapper>, newIds: seq<Ids>)
    ensures out == EnrichedAll(results, seenIds)
    ensures newIds == CarriedIds(out)
  {
    out, newIds := results, [];
    ghost var done: seq<Wrapper> := [];
    hide Enriched;
    for i := 0 to |results|
      invariant |out| == |results| && |done| == i
      invariant forall k :: 0 <= k < |out| ==> out[k] == if k < i then done[k] else results[k]
      invariant forall k :: 0 <= k < i ==> done[k] == Enriched(results[k], seenIds)
      invariant newIds == CarriedIds(done)
    {
      var result, carried := EnrichOne(out[i], seenIds);
      CarriedNext(done, result);
      done := done + [result];
      out := out[i := result];
      newIds := newIds + carried;
    }
    assert out == done;
  }

  /** Every id in `got` is some original id of a result linked to result k. */
  ghost predicate FromComponent(ids: seq<Ids>, k: nat, got: Ids) {
    k < |ids| && forall key :: key in got ==> Justified(ids, k, key, got[key])
  }

  ghost predicate Justified(ids: seq<Ids>, k: nat, key: string, value: string) {
    exists j: nat :: j < |ids| && Linked(ShareGraph(ids), k, j) && key in ids[j] && ids[j][key] == value
  }

  lemma FromComponentMono(ids: seq<Ids>, more: seq<Ids>, k: nat, got: Ids)
    requires FromComponent(ids, k, got)
    ensures FromComponent(ids + more, k, got)
  {
    var all := ids + more;
    forall key | key in got ensures Justified(all, k, key, got[key]) {
      assert Justified(ids, k, key, got[key]);
      var j: nat :| j < |ids| && Linked(ShareGraph(ids), k, j) && key in ids[j] && ids[j][key] == got[key];
      LinkedMono(ShareGraph(ids), ShareGraph(all), k, j);
      assert all[j] == ids[j];
    }
  }

  lemma IdStringSource(ids: seq<Ids>, k: nat, got: Ids, s: string) returns (j: nat)
    requires FromComponent(ids, k, got) && s in AllIds(got)
    ensures j < |ids| && Linked(ShareGraph(ids), k, j) && s in AllIds(ids[j])
  {
    var key :| key in got && s == key + ":" + got[key];
    assert Justified(ids, k, key, got[key]);
    j :| j < |ids| && Linked(ShareGraph(ids), k, j) && key in ids[j] && ids[j][key] == got[key];
  }

  /** Two id sets in common means their owners are linked. */
  lemma SharingLinksOwners(ids: seq<Ids>, k: nat, got: Ids, owner: nat, other: Ids)
    requires FromComponent(ids, k, got) && FromComponent(ids, owner, other) && HasCommonId(got, other)
    ensures Linked(ShareGraph(ids), k, owner)
  {
    var g := ShareGraph(ids);
    var s :| s in AllIds(got) * AllIds(other);
    var a := IdStringSource(ids, k, got, s);
    var b := IdStringSource(ids, owner, other, s);
    assert s in AllIds(ids[a]) * AllIds(ids[b]);
    LinkedEdge(g, a, b);
    LinkedTrans(g, k, a, b);
    LinkedSym(g, owner, b);
    LinkedTrans(g, k, b, owner);
  }

  lemma {:induction false} AbsorbStaysInComponent(ids: seq<Ids>, k: nat, got: Ids, seen: seq<Ids>, owners: seq<nat>)
    requires FromComponent(ids, k, got)
    requires |owners| == |seen| && forall m :: 0 <= m < |seen| ==> FromComponent(ids, owners[m], seen[m])
    ensures FromComponent(ids, k, Absorb(got, seen))
  {
    if seen != [] {
      var m := |seen| - 1;
      AbsorbStaysInComponent(ids, k, got, seen[..m], owners[..m]);
      var soFar := Absorb(got, seen[..m]);
      if HasCommonId(soFar, seen[m]) {
        SharingLinksOwners(ids, k, soFar, owners[m], seen[m]);
        forall key | key in seen[m] ensures Justified(ids, k, key, seen[m][key]) {
          assert Justified(ids, owners[m], key, seen[m][key]);
          var j: nat :|
            j < |ids| && Linked(ShareGraph(ids), owners[m], j) && key in ids[j] && ids[j][key] == seen[m][key];
          LinkedTrans(ShareGraph(ids), k, owners[m], j);
        }
        forall key | key in Absorb(got, seen) ensures Justified(ids, k, key, Absorb(got, seen)[key]) {
          if key in soFar { assert Justified(ids, k, key, soFar[key]); }
        }
      }
    }
  }

  /** Enrichment only adds: the result's own ids survive unchanged. */
  lemma {:induction false} AbsorbKeepsOwn(ids: Ids, seen: seq<Ids>)
    ensures forall key :: key in ids ==> key in Absorb(ids, seen) && Absorb(ids, seen)[key] == ids[key]
  {
    if seen != [] { AbsorbKeepsOwn(ids, seen[..|seen| - 1]); }
  }

  /** What a sent result may look like, given what came in and everything received by then. */
  ghost predicate SoundResult(received: seq<Ids>, k: nat, original: Wrapper, sent: Wrapper) {
    && sent.metadata == original.metadata
    && (original.ids.None? <==> sent.ids.None?)
    && (sent.ids.Some? ==>
          && FromComponent(received, k, sent.ids.value)
          && forall key :: key in original.ids.value ==>
               key in sent.ids.value && sent.ids.value[key] == original.ids.value[key])
  }

  /** Results sent for results start, start+1, ... of everything received are sound. */
  ghost predicate SoundFrom(received: seq<Ids>, start: nat, originals: seq<Wrapper>, sent: seq<Wrapper>) {
    forall r: nat :: r < |originals| && r < |sent| ==> SoundResult(received, start + r, originals[r], sent[r])
  }

  /** Batch b is sound with respect to the results received up to and including it. */
  ghost predicate SoundBatch(received: seq<Group>, sent: seq<Group>, b: nat)
    requires b < |received| == |sent|
  {
    SoundFrom(ExtractIds(Flat(received, b + 1)), Offset(received, b), received[b].results, sent[b].results)
  }

  /** Seen ids, each owned by a received result whose component justifies it. */
  ghost predicate SeenSound(received: seq<Ids>, seen: seq<Ids>, owners: seq<nat>) {
    |owners| == |seen| && forall m :: 0 <= m < |seen| ==> FromComponent(received, owners[m], seen[m])
  }

  lemma OwnIdsFromComponent(ids: seq<Ids>, k: nat)
    requires k < |ids|
    ensures FromComponent(ids, k, ids[k])
  {
    LinkedRefl(ShareGraph(ids), k);
    forall key | key in ids[k] ensures Justified(ids, k, key, ids[k][key]) {}
  }

  lemma SeenSoundMono(ids: seq<Ids>, more: seq<Ids>, seen: seq<Ids>, owners: seq<nat>)
    requires SeenSound(ids, seen, owners)
    ensures SeenSound(ids + more, seen, owners)
  {
    forall m | 0 <= m < |seen| ensures FromComponent(ids + more, owners[m], seen[m]) {
      FromComponentMono(ids, more, owners[m], seen[m]);
    }
  }

  lemma EnrichedSound(all: seq<Ids>, k: nat, w: Wrapper, seen: seq<Ids>, owners: seq<nat>)
    requires SeenSound(all, seen, owners) && k < |all|
    requires w.ids.Some? ==> all[k] == w.ids.value
    ensures SoundResult(all, k, w, Enriched(w, seen))
  {
    if w.ids.Some? {
      OwnIdsFromComponent(all, k);
      hide FromComponent;
      AbsorbStaysInComponent(all, k, w.ids.value, seen, owners);
      AbsorbKeepsOwn(w.ids.value, seen);
    }
  }

  /** Enriching one batch is sound, and what it adds to the seen ids is too. */
  lemma BatchSound(before: seq<Wrapper>, batch: seq<Wrapper>, seen: seq<Ids>, owners: seq<nat>)
    returns (owners': seq<nat>)
    requires SeenSound(ExtractIds(before), seen, owners)
    ensures SoundFrom(ExtractIds(before + batch), |before|, batch, EnrichedAll(batch, seen))
    ensures SeenSound(ExtractIds(before + batch), seen + CarriedIds(EnrichedAll(batch, seen)), owners')
  {
    var all := ExtractIds(before + batch);
    assert all == ExtractIds(before) + ExtractIds(batch);
    SeenSoundMono(ExtractIds(before), ExtractIds(batch), seen, owners);
    forall r: nat | r < |batch| ensures SoundResult(all, |before| + r, batch[r], EnrichedAll(batch, seen)[r]) {
      assert batch[r].ids.Some? ==> all[|before| + r] == batch[r].ids.value;
      hide *;
      EnrichedSound(all, |before| + r, batch[r], seen, owners);
    }
    hide SoundResult, SeenSound, ExtractIds, CarriedIds;
    var added := CarriersAt(all, |before|, batch, EnrichedAll(batch, seen));
    owners' := owners + added;
    SeenSoundAppend(all, seen, owners, CarriedIds(EnrichedAll(batch, seen)), added);
  }

  lemma SeenSoundAppend(all: seq<Ids>, seen: seq<Ids>, owners: seq<nat>, more: seq<Ids>, moreOwners: seq<nat>)
    requires SeenSound(all, seen, owners) && SeenSound(all, more, moreOwners)
    ensures SeenSound(all, seen + more, owners + moreOwners)
  {
    forall m: nat | m < |seen + more| ensures FromComponent(all, (owners + moreOwners)[m], (seen + more)[m]) {
      if m < |seen| {
        assert FromComponent(all, owners[m], seen[m]);
      } else {
        assert FromComponent(all, moreOwners[m - |seen|], more[m - |seen|]);
      }
    }
  }

  lemma {:induction false} CarriersAt(all: seq<Ids>, start: nat, batch: seq<Wrapper>, sent: seq<Wrapper>)
    returns (owners: seq<nat>)
    requires |sent| <= |batch| && SoundFrom(all, start, batch, sent)
    ensures SeenSound(all, CarriedIds(sent), owners)
  {
    if sent == [] {
      owners := [];
    } else {
      var r := |sent| - 1;
      owners := CarriersAt(all, start, batch, sent[..r]);
      assert SoundResult(all, start + r, batch[r], sent[r]);
      if sent[r].ids.Some? {
        assert SeenSound(all, [sent[r].ids.value], [start + r]);
        SeenSoundAppend(all, CarriedIds(sent[..r]), owners, [sent[r].ids.value], [start + r]);
        owners := owners + [start + r];
      }
    }
  }

  /** The batches that reach the client: the pre-fetched one first, empty ones dropped. */
  function Received(trakt: seq<Wrapper>, plugins: seq<Group>): seq<Group> {
    (if trakt != [] then [Group("trakt", "trakt", trakt)] else []) + NonEmpty(plugins)
  }

  function NonEmpty(plugins: seq<Group>): seq<Group> {
    if plugins == [] then []
    else
      var last := plugins[|plugins| - 1];
      NonEmpty(plugins[..|plugins| - 1]) + (if last.results != [] then [last] else [])
  }

  lemma {:induction false} NonEmptyPicked(plugins: seq<Group>) returns (at: seq<nat>)
    ensures Picked(plugins, at, NonEmpty(plugins))
    ensures forall k: nat :: k < |plugins| ==> (k in at <==> plugins[k].results != [])
  {
    at := [];
    if plugins != [] {
      var last := |plugins| - 1;
      at := NonEmptyPicked(plugins[..last]);
      hide Picked;
      PickNext(plugins, at, NonEmpty(plugins[..last]), plugins[last].results != []);
      if plugins[last].results != [] { at := at + [last]; }
    }
  }

  lemma {:induction false} NonEmptyCons(g: Group, plugins: seq<Group>)
    ensures NonEmpty([g] + plugins) == (if g.results != [] then [g] else []) + NonEmpty(plugins)
  {
    var all := [g] + plugins;
    if plugins == [] {
      assert all[..0] == [] && NonEmpty([]) == [];
    } else {
      assert all[..|all| - 1] == [g] + plugins[..|plugins| - 1];
      NonEmptyCons(g, plugins[..|plugins| - 1]);
    }
  }

  /** What arrives are the pre-fetched results and all plugin batches, in order, those without results left out. */
  lemma ReceivedPicked(trakt: seq<Wrapper>, plugins: seq<Group>) returns (at: seq<nat>)
    ensures var all := [Group("trakt", "trakt", trakt)] + plugins;
      && Picked(all, at, Received(trakt, plugins))
      && forall k: nat :: k < |all| ==> (k in at <==> all[k].results != [])
  {
    var all := [Group("trakt", "trakt", trakt)] + plugins;
    NonEmptyCons(all[0], plugins);
    assert Received(trakt, plugins) == NonEmpty(all);
    hide *;
    at := NonEmptyPicked(all);
  }

  lemma {:induction false} FlatPrefix(groups: seq<Group>, more: seq<Group>, k: nat)
    requires k <= |groups|
    ensures Flat(groups + more, k) == Flat(groups, k)
  {
    if k > 0 { FlatPrefix(groups, more, k - 1); }
  }

  /** Everything sent so far is sound. */
  ghost predicate AllSound(received: seq<Group>, sent: seq<Group>) {
    SameShape(received, sent) && forall b: nat :: b < |sent| ==> SoundBatch(received, sent, b)
  }

  lemma EarlierBatchStaysSound(received: seq<Group>, sent: seq<Group>, g: Group, h: Group, b: nat)
    requires b < |received| == |sent| && SoundBatch(received, sent, b)
    ensures SoundBatch(received + [g], sent + [h], b)
  {
    FlatPrefix(received, [g], b + 1);
    FlatPrefix(received, [g], b);
    var received', sent' := received + [g], sent + [h];
    assert received'[b] == received[b] && sent'[b] == sent[b];
    assert ExtractIds(Flat(received', b + 1)) == ExtractIds(Flat(received, b + 1));
  }

  lemma LastBatchSound(received: seq<Group>, sent: seq<Group>, g: Group, h: Group)
    requires |received| == |sent|
    requires SoundFrom(ExtractIds(Flat(received, |received|) + g.results), Offset(received, |received|),
                       g.results, h.results)
    ensures SoundBatch(received + [g], sent + [h], |received|)
  {
    var k := |received|;
    FlatPrefix(received, [g], k);
    assert (received + [g])[k] == g && (sent + [h])[k] == h;
    assert Flat(received + [g], k + 1) == Flat(received, k) + g.results;
  }

  lemma AllSoundExtend(received: seq<Group>, sent: seq<Group>, g: Group, h: Group)
    requires AllSound(received, sent)
    requires g.sourceId == h.sourceId && g.sourceName == h.sourceName && |g.results| == |h.results|
    requires SoundBatch(received + [g], sent + [h], |received|)
    ensures AllSound(received + [g], sent + [h])
  {
    forall b: nat | b < |received| ensures SoundBatch(received + [g], sent + [h], b) {
      EarlierBatchStaysSound(received, sent, g, h, b);
    }
  }

  lemma NothingSent()
    ensures Streamed([], []) && SentIds([]) == [] && AllSound([], []) && SeenSound(ExtractIds(Flat([], 0)), [], [])
  {
  }

  // ---------------------------------------------------------------------------
  // What is sent, batch by batch
  // ---------------------------------------------------------------------------

  /** The ids of everything sent, in order. */
  function SentIds(sent: seq<Group>): seq<Ids> {
    if sent == [] then []
    else SentIds(sent[..|sent| - 1]) + CarriedIds(sent[|sent| - 1].results)
  }

  /** Every batch is what came in, enriched from everything sent before it. */
  ghost predicate Streamed(received: seq<Group>, sent: seq<Group>) {
    && |sent| == |received|
    && forall b: nat :: b < |sent| ==> sent[b].results == EnrichedAll(received[b].results, SentIds(sent[..b]))
  }

  lemma StreamedNext(received: seq<Group>, sent: seq<Group>, g: Group, h: Group)
    requires Streamed(received, sent) && h.results == EnrichedAll(g.results, SentIds(sent))
    ensures Streamed(received + [g], sent + [h])
    ensures SentIds(sent + [h]) == SentIds(sent) + CarriedIds(h.results)
  {
    var received', sent' := received + [g], sent + [h];
    assert sent'[..|sent|] == sent;
    forall b: nat | b < |sent'| ensures sent'[b].results == EnrichedAll(received'[b].results, SentIds(sent'[..b])) {
      if b < |sent| { assert sent'[..b] == sent[..b] && received'[b] == received[b]; }
    }
  }

  lemma {:induction false} CarriedContains(ws: seq<Wrapper>, x: nat)
    requires x < |ws| && ws[x].ids.Some?
    ensures ws[x].ids.value in CarriedIds(ws)
  {
    if x < |ws| - 1 { CarriedContains(ws[..|ws| - 1], x); }
  }

  lemma {:induction false} SentContains(sent: seq<Group>, a: nat, x: nat)
    requires a < |sent| && x < |sent[a].results| && sent[a].results[x].ids.Some?
    ensures sent[a].results[x].ids.value in SentIds(sent)
  {
    if a < |sent| - 1 {
      SentContains(sent[..|sent| - 1], a, x);
    } else {
      CarriedContains(sent[a].results, x);
    }
  }

  lemma SharingKept(ids: Ids, more: Ids, other: Ids)
    requires HasCommonId(ids, other) && forall key :: key in ids ==> key in more && more[key] == ids[key]
    ensures HasCommonId(more, other)
  {
    var s :| s in AllIds(ids) * AllIds(other);
    assert s in AllIds(more) * AllIds(other);
  }

  /** Looking through seen ids takes every key of a set that shares a string with the ids there are to begin with. */
  lemma {:induction false} AbsorbTakes(ids: Ids, seen: seq<Ids>, other: Ids)
    requires other in seen && HasCommonId(ids, other)
    ensures other.Keys <= Absorb(ids, seen).Keys
  {
    var init, last := seen[..|seen| - 1], seen[|seen| - 1];
    if other == last {
      AbsorbKeepsOwn(ids, init);
      SharingKept(ids, Absorb(ids, init), other);
    } else {
      assert other in init;
      AbsorbTakes(ids, init, other);
    }
  }

  /**
   * Nothing is missed: whatever was sent with a result of an earlier batch is
   * sent, key by key, with a later result whose own ids share a string with it.
   */
  lemma StreamedComplete(received: seq<Group>, sent: seq<Group>, a: nat, x: nat, b: nat, r: nat)
    requires Streamed(received, sent) && a < b < |sent|
    requires x < |sent[a].results| && r < |received[b].results|
    requires sent[a].results[x].ids.Some? && received[b].results[r].ids.Some?
    requires HasCommonId(received[b].results[r].ids.value, sent[a].results[x].ids.value)
    ensures |sent[b].results| == |received[b].results| && sent[b].results[r].ids.Some?
    ensures sent[a].results[x].ids.value.Keys <= sent[b].results[r].ids.value.Keys
  {
    var before := sent[..b];
    assert before[a] == sent[a];
    SentContains(before, a, x);
    AbsorbTakes(received[b].results[r].ids.value, SentIds(before), sent[a].results[x].ids.value);
  }

  lemma AbsorbOne(ids: Ids, only: Ids)
    requires HasCommonId(ids, only)
    ensures Absorb(ids, [only]) == Merge(ids, only)
  {
    assert [only][..0] == [];
    hide HasCommonId, Merge;
  }

  /** Two batches of one result each: the second is filled up from the first. */
  lemma TwoResults(received: seq<Group>, sent: seq<Group>, first: Wrapper, second: Wrapper)
    requires |received| == 2 && Streamed(received, sent)
    requires received[0].results == [first] && received[1].results == [second]
    requires first.ids.Some? && second.ids.Some? && HasCommonId(second.ids.value, first.ids.value)
    ensures sent[1].results == [second.(ids := Some(Merge(second.ids.value, first.ids.value)))]
  {
    assert sent[..0] == [] && sent[..1] == [sent[0]];
    NothingSeen([first]);
    OnlyBatchStreamed(sent[0]);
    CarriedNext([], first);
    assert [] + [first] == [first];
    AbsorbOne(second.ids.value, first.ids.value);
  }

  /** The second batch's result gets the id that came with the first batch's. */
  lemma LaterResultEnriched(received: seq<Group>, sent: seq<Group>)
    requires |received| == 2 && Streamed(received, sent)
    requires received[0].results == [Wrapper(Some(map["imdb" := "tt1", "tmdb" := "5"]), "a")]
    requires received[1].results == [Wrapper(Some(map["imdb" := "tt1"]), "b")]
    ensures sent[1].results == [Wrapper(Some(map["imdb" := "tt1", "tmdb" := "5"]), "b")]
  {
    var first: Ids, second: Ids := map["imdb" := "tt1", "tmdb" := "5"], map["imdb" := "tt1"];
    assert "imdb" + ":" + first["imdb"] == "imdb" + ":" + second["imdb"];
    assert "imdb" + ":" + first["imdb"] in AllIds(second) * AllIds(first);
    assert Merge(second, first) == first;
    hide *;
    TwoResults(received, sent, Wrapper(Some(first), "a"), Wrapper(Some(second), "b"));
  }

  /**
   * The streaming search.  `plugins` are the filtered plugin batches in arrival
   * order.  Whatever their number and contents, every batch is enriched from all
   * that was sent before it, and every batch sent is sound.
   */
  method SearchStream(trakt: seq<Wrapper>, plugins: seq<Group>) returns (sent: seq<Group>)
    ensures SameShape(Received(trakt, plugins), sent)
    ensures Streamed(Received(trakt, plugins), sent)
    ensures forall b: nat :: b < |sent| ==> SoundBatch(Received(trakt, plugins), sent, b)
  {
    sent := [];
    var seenIds: seq<Ids> := [];
    ghost var owners: seq<nat> := [];
    ghost var received: seq<Group> := [];
    NothingSent();
    hide SeenSound, SoundBatch, CarriedIds, Streamed, SentIds;
    if trakt != [] {
      sent, seenIds, owners := SendTrakt(trakt);
      received := sent;
    }
    assert plugins[..0] == [];
    for p := 0 to |plugins|
      invariant received == Received(trakt, plugins[..p])
      invariant AllSound(received, sent) && Streamed(received, sent) && seenIds == SentIds(sent)
      invariant SeenSound(ExtractIds(Flat(received, |received|)), seenIds, owners)
    {
      assert plugins[..p + 1][..p] == plugins[..p];
      var batch := plugins[p];
      if batch.results != [] {
        sent, seenIds, owners := SendBatch(received, sent, seenIds, owners, batch);
        received := received + [batch];
      }
    }
    assert plugins[..|plugins|] == plugins;
  }

  /** Enrich one plugin batch, remember its ids, send it. */
  method SendBatch(ghost received: seq<Group>, sent: seq<Group>, seenIds: seq<Ids>, ghost owners: seq<nat>,
                   batch: Group)
    returns (sent': seq<Group>, seenIds': seq<Ids>, ghost owners': seq<nat>)
    requires AllSound(received, sent) && Streamed(received, sent) && seenIds == SentIds(sent)
    requires SeenSound(ExtractIds(Flat(received, |received|)), seenIds, owners)
    ensures AllSound(received + [batch], sent') && Streamed(received + [batch], sent') && seenIds' == SentIds(sent')
    ensures SeenSound(ExtractIds(Flat(received + [batch], |received| + 1)), seenIds', owners')
  {
    var filtered, newIds := EnrichFromSeen(batch.results, seenIds);
    owners' := BatchSound(Flat(received, |received|), batch.results, seenIds, owners);
    seenIds' := seenIds + newIds;
    LastBatchSound(received, sent, batch, batch.(results := filtered));
    AllSoundExtend(received, sent, batch, batch.(results := filtered));
    StreamedNext(received, sent, batch, batch.(results := filtered));
    sent' := sent + [batch.(results := filtered)];
    FlatPrefix(received, [batch], |received|);
  }

  /** The pre-fetched results go out as they are; their ids become the first seen ids. */
  method SendTrakt(trakt: seq<Wrapper>) returns (sent: seq<Group>, seenIds: seq<Ids>, ghost owners: seq<nat>)
    ensures sent == [Group("trakt", "trakt", trakt)]
    ensures AllSound(sent, sent) && Streamed(sent, sent) && seenIds == SentIds(sent)
    ensures SeenSound(ExtractIds(Flat(sent, |sent|)), seenIds, owners)
  {
    seenIds := [];
    for i := 0 to |trakt|
      invariant seenIds == CarriedIds(trakt[..i])
    {
      assert trakt[..i + 1][..i] == trakt[..i];
      if trakt[i].ids.Some? { seenIds := seenIds + [trakt[i].ids.value]; }
    }
    assert trakt[..|trakt|] == trakt;
    var batch := Group("trakt", "trakt", trakt);
    sent := [batch];
    OnlyBatchStreamed(batch);
    owners := FirstBatchSound(batch);
  }

  lemma OnlyBatchStreamed(batch: Group)
    ensures Streamed([batch], [batch]) && SentIds([batch]) == CarriedIds(batch.results)
  {
    NothingSeen(batch.results);
    assert [batch][..0] == [];
  }

  lemma FlatOfOne(batch: Group)
    ensures Flat([], 0) == [] && Flat([], 0) + batch.results == batch.results && Flat([batch], 1) == batch.results
  {
  }

  lemma NothingSeen(ws: seq<Wrapper>)
    ensures EnrichedAll(ws, []) == ws
  {
    assert forall i :: 0 <= i < |ws| ==> Enriched(ws[i], []) == ws[i];
  }

  lemma TraktSound(ws: seq<Wrapper>) returns (owners: seq<nat>)
    ensures SoundFrom(ExtractIds(ws), 0, ws, ws)
    ensures SeenSound(ExtractIds(ws), CarriedIds(ws), owners)
  {
    NothingSeen(ws);
    var none: seq<Wrapper> := [];
    assert none + ws == ws && SeenSound(ExtractIds(none), [], []);
    hide CarriedIds, SoundFrom, SeenSound, EnrichedAll;
    owners := BatchSound(none, ws, [], []);
    assert [] + CarriedIds(ws) == CarriedIds(ws);
  }

  lemma FirstBatchSound(batch: Group) returns (owners: seq<nat>)
    ensures AllSound([batch], [batch])
    ensures SeenSound(ExtractIds(Flat([batch], 1)), CarriedIds(batch.results), owners)
  {
    var ws := batch.results;
    FlatOfOne(batch);
    owners := TraktSound(ws);
    hide Flat, SoundResult, SoundBatch, SeenSound, CarriedIds;
    assert [] + [batch] == [batch];
    LastBatchSound([], [], batch, batch);
    AllSoundExtend([], [], batch, batch);
  }

  /** Streaming never sends a key that the batch merge of the same results would not have. */
  lemma StreamedKeysAreMergedKeys(received: seq<Ids>, k: nat, original: Wrapper, sent: Wrapper)
    requires SoundResult(received, k, original, sent) && sent.ids.Some?
    ensures k < |received| && sent.ids.value.Keys <= MergedIds(received, k).Keys
  {
    forall key | key in sent.ids.value ensures key in MergedIds(received, k) {
      assert Justified(received, k, key, sent.ids.value[key]);
      IdMergeLaws.MergedFromEarliest(received, k, key);
    }
  }
}
