/** What the debouncer guarantees over every interleaving of the interrupt with the poller's memory accesses. */
module Debounce {
  import opened Bytes
  import opened Events
  import opened Button

  const DEBOUNCE_US := 30_000

  ghost predicate ClockIsMonotone(es: seq<Event>) {
    forall i, j :: 0 <= i < j < |es| ==> es[i].at <= es[j].at
  }

  /** `bs` are the states the button goes through on the events `es`. */
  ghost predicate IsButtonRun(bs: seq<State>, es: seq<Event>) {
    && |bs| == |es| + 1 && bs[0] == BOOT_BUTTON && ClockIsMonotone(es)
    && forall k :: 0 <= k < |es| ==> bs[k].Enabled(es[k].act) && bs[k + 1] == bs[k].Step(es[k])
  }

  /** The interrupt of event `k` sets the flag. */
  predicate AcceptedEdge(bs: seq<State>, es: seq<Event>, k: nat)
    requires k < |es| < |bs|
  {
    es[k].act == Edge(9) && !bs[k].edgeSeen
  }

  predicate Confirms(es: seq<Event>, k: nat)
    requires k < |es|
  {
    es[k].act == PollPin(0)
  }

  /**
   Positions of the latest accepted edge, flag test and flag clear, the edge and test that belong to that clear, and
   how many clears and confirmed presses there have been. A position is -1 before the first such event.
   */
  datatype History = History(edge: int, test: int, clear: int, clearedEdge: int, clearedTest: int,
                             clears: nat, presses: nat)

  function HistoryAt(bs: seq<State>, es: seq<Event>, k: nat): (h: History)
    requires k <= |es| < |bs|
    ensures -1 <= h.edge < k && -1 <= h.test < k && -1 <= h.clear < k
    ensures h.clearedEdge < k && h.clearedTest < k
  {
    if k == 0 then History(-1, -1, -1, -1, -1, 0, 0)
    else
      var h := HistoryAt(bs, es, k - 1);
      match es[k - 1].act
      case Edge(_) => if AcceptedEdge(bs, es, k - 1) then h.(edge := k - 1) else h
      case PollTest => h.(test := k - 1)
      case PollClear =>
        h.(clear := k - 1, clearedEdge := h.edge, clearedTest := h.test, clears := h.clears + 1)
      case PollPin(_) => if Confirms(es, k - 1) then h.(presses := h.presses + 1) else h
      case _ => h
  }

  lemma PressesGrow(bs: seq<State>, es: seq<Event>, k: nat)
    requires k < |es| < |bs|
    ensures HistoryAt(bs, es, k + 1).presses == HistoryAt(bs, es, k).presses + (if Confirms(es, k) then 1 else 0)
  {
  }

  /** Edge `a` is latched, and its time is what memory holds, in every state from just after `a` to `k`. */
  ghost predicate LatchedSince(bs: seq<State>, es: seq<Event>, a: int, k: int) {
    && 0 <= a < |es| < |bs| && a < k < |bs| && AcceptedEdge(bs, es, a)
    && forall m :: a < m <= k ==> bs[m].edgeSeen && bs[m].edgeTime == es[a].at
  }

  /** The clear at `c` belongs to the flag test at `t` and the edge accepted at `a`, at least 30 ms earlier. */
  ghost predicate Cleared(bs: seq<State>, es: seq<Event>, a: int, t: int, c: int) {
    && LatchedSince(bs, es, a, c) && a < t < c < |es|
    && es[t].act == PollTest && es[c].act == PollClear
    && es[a].at + DEBOUNCE_US <= es[c].at
  }

  function ClockBefore(es: seq<Event>, k: nat): nat
    requires k <= |es|
  {
    if k == 0 then 0 else es[k - 1].at
  }

  /** A set flag stands for the latest accepted edge, which came after the latest clear. */
  ghost predicate FlagInv(bs: seq<State>, es: seq<Event>, k: nat)
    requires k <= |es| < |bs|
  {
    var h := HistoryAt(bs, es, k);
    bs[k].edgeSeen ==>
      LatchedSince(bs, es, h.edge, k) && h.clear < h.edge && DEBOUNCE_US * h.clears <= bs[k].edgeTime
  }

  /** While the poller works on an edge, the flag stays set and what it has read is what is in memory. */
  ghost predicate PollerInv(bs: seq<State>, es: seq<Event>, k: nat)
    requires k <= |es| < |bs|
  {
    var b, h := bs[k], HistoryAt(bs, es, k);
    && (b.poller.Measuring? || b.poller.Clearing? ==>
          b.edgeSeen && h.edge < h.test && es[h.test].act == PollTest)
    && (b.poller.Measuring? ==>
          && (b.poller.low.Some? ==> b.poller.low.value == b.edgeTime % WORD)
          && (b.poller.high.Some? ==> b.poller.high.value == b.edgeTime / WORD)
          && (b.poller.now.Some? ==> b.edgeTime <= b.poller.now.value <= ClockBefore(es, k)))
    && (b.poller.Clearing? ==> b.edgeTime + DEBOUNCE_US <= ClockBefore(es, k))
  }

  ghost predicate ClearInv(bs: seq<State>, es: seq<Event>, k: nat)
    requires k <= |es| < |bs|
  {
    var b, h := bs[k], HistoryAt(bs, es, k);
    && (h.clear < 0 ==> h.clears == 0)
    && (h.clear >= 0 ==>
          && Cleared(bs, es, h.clearedEdge, h.clearedTest, h.clear)
          && DEBOUNCE_US * h.clears <= es[h.clear].at)
    && (b.poller.Confirming? ==> h.clear >= 0 && forall m :: h.clear < m < k ==> !es[m].act.PollPin?)
    && h.presses + (if b.poller.Confirming? then 1 else 0) <= h.clears
  }

  ghost predicate Inv(bs: seq<State>, es: seq<Event>, k: nat)
    requires k <= |es| < |bs|
  {
    FlagInv(bs, es, k) && PollerInv(bs, es, k) && ClearInv(bs, es, k)
  }

  lemma FlagStep(bs: seq<State>, es: seq<Event>, k: nat)
    requires IsButtonRun(bs, es) && k < |es| && Inv(bs, es, k)
    ensures FlagInv(bs, es, k + 1)
  {
    var h, h' := HistoryAt(bs, es, k), HistoryAt(bs, es, k + 1);
    if AcceptedEdge(bs, es, k) {
      if h.clear >= 0 {
        assert es[h.clear].at <= es[k].at;
      }
      assert bs[k + 1].edgeTime == es[k].at;
    } else if bs[k + 1].edgeSeen {
      assert bs[k].edgeSeen && bs[k + 1].edgeTime == bs[k].edgeTime && h'.edge == h.edge;
    }
  }

  lemma DecideReadsTheEdge(bs: seq<State>, es: seq<Event>, k: nat)
    requires IsButtonRun(bs, es) && k < |es| && Inv(bs, es, k) && es[k].act == PollDecide
    ensures bs[k].poller.high.value * WORD + bs[k].poller.low.value == bs[k].edgeTime
    ensures bs[k + 1].poller.Clearing? ==> bs[k].edgeTime + DEBOUNCE_US <= ClockBefore(es, k)
  {
  }

  lemma PollerStep(bs: seq<State>, es: seq<Event>, k: nat)
    requires IsButtonRun(bs, es) && k < |es| && Inv(bs, es, k)
    ensures PollerInv(bs, es, k + 1)
  {
    var b, h, h' := bs[k], HistoryAt(bs, es, k), HistoryAt(bs, es, k + 1);
    assert ClockBefore(es, k) <= es[k].at == ClockBefore(es, k + 1);
    if es[k].act == PollDecide {
      DecideReadsTheEdge(bs, es, k);
    } else if es[k].act == PollReadNow {
      assert b.edgeTime == es[h.edge].at <= es[k].at;
    }
  }

  /** The step in which the poller clears the flag. */
  lemma NewClear(bs: seq<State>, es: seq<Event>, k: nat)
    requires IsButtonRun(bs, es) && k < |es| && Inv(bs, es, k) && es[k].act == PollClear
    ensures Cleared(bs, es, HistoryAt(bs, es, k).edge, HistoryAt(bs, es, k).test, k)
    ensures DEBOUNCE_US * (HistoryAt(bs, es, k).clears + 1) <= es[k].at
  {
    assert ClockBefore(es, k) <= es[k].at;
  }

  /** The step in which the pin is sampled. */
  lemma SampledClear(bs: seq<State>, es: seq<Event>, k: nat)
    requires IsButtonRun(bs, es) && k < |es| && Inv(bs, es, k) && es[k].act.PollPin?
    ensures ClearInv(bs, es, k + 1)
  {
    assert bs[k].poller.Confirming? && bs[k + 1].poller.Outside?;
  }

  lemma OldClear(bs: seq<State>, es: seq<Event>, k: nat)
    requires IsButtonRun(bs, es) && k < |es| && Inv(bs, es, k) && es[k].act != PollClear && !es[k].act.PollPin?
    ensures ClearInv(bs, es, k + 1)
  {
    var h, h' := HistoryAt(bs, es, k), HistoryAt(bs, es, k + 1);
    assert h' == h.(edge := h'.edge, test := h'.test);
    assert bs[k + 1].poller.Confirming? <==> bs[k].poller.Confirming?;
  }

  lemma ClearStep(bs: seq<State>, es: seq<Event>, k: nat)
    requires IsButtonRun(bs, es) && k < |es| && Inv(bs, es, k)
    ensures ClearInv(bs, es, k + 1)
  {
    if es[k].act == PollClear {
      NewClear(bs, es, k);
    } else if es[k].act.PollPin? {
      SampledClear(bs, es, k);
    } else {
      OldClear(bs, es, k);
    }
  }

  lemma {:induction false} InvHolds(bs: seq<State>, es: seq<Event>, k: nat)
    requires IsButtonRun(bs, es) && k <= |es|
    ensures Inv(bs, es, k)
  {
    if k == 0 {
    } else {
      InvHolds(bs, es, k - 1);
      FlagStep(bs, es, k - 1);
      PollerStep(bs, es, k - 1);
      ClearStep(bs, es, k - 1);
    }
  }

  // ---- the guarantees ----

  /** The accepted edge, the flag test and the flag clear behind the pin sample of event `k`. */
  function EdgeOf(bs: seq<State>, es: seq<Event>, k: nat): int
    requires k <= |es| < |bs|
  {
    HistoryAt(bs, es, k).clearedEdge
  }

  function TestOf(bs: seq<State>, es: seq<Event>, k: nat): int
    requires k <= |es| < |bs|
  {
    HistoryAt(bs, es, k).clearedTest
  }

  function ClearOf(bs: seq<State>, es: seq<Event>, k: nat): int
    requires k <= |es| < |bs|
  {
    HistoryAt(bs, es, k).clear
  }

  /**
   Every pin sample has its own accepted edge, at least 30 ms older than the clear that precedes the sample, and
   the edge time in memory is that edge's in every state from the edge to the clear: the poller never reads a torn
   or changing value.
   */
  lemma SampledEdgeIsSettled(bs: seq<State>, es: seq<Event>, k: nat)
    requires IsButtonRun(bs, es) && k < |es| && es[k].act.PollPin?
    ensures Cleared(bs, es, EdgeOf(bs, es, k), TestOf(bs, es, k), ClearOf(bs, es, k))
    ensures ClearOf(bs, es, k) < k
    ensures forall m :: ClearOf(bs, es, k) < m < k ==> !es[m].act.PollPin?
  {
    InvHolds(bs, es, k);
  }

  /**
   Two pin samples use different edges, the later one accepted after the earlier clear, and their clears are at
   least 30 ms apart. The samples themselves are, too, once the later edge comes after the earlier sample.
   */
  lemma SamplesUseDistinctEdges(bs: seq<State>, es: seq<Event>, j: nat, k: nat)
    requires IsButtonRun(bs, es) && j < k < |es| && es[j].act.PollPin? && es[k].act.PollPin?
    ensures 0 <= EdgeOf(bs, es, j) < ClearOf(bs, es, j) < EdgeOf(bs, es, k) < ClearOf(bs, es, k)
    ensures es[ClearOf(bs, es, j)].at + DEBOUNCE_US <= es[ClearOf(bs, es, k)].at
    ensures j < EdgeOf(bs, es, k) ==> es[j].at + DEBOUNCE_US <= es[k].at
  {
    SampledEdgeIsSettled(bs, es, j);
    SampledEdgeIsSettled(bs, es, k);
    var c, a, c' := ClearOf(bs, es, j), EdgeOf(bs, es, k), ClearOf(bs, es, k);
    assert !(c' < j < k);
    assert c < j < c';
    assert c <= a by {
      assert bs[c + 1] == bs[c].Step(es[c]);
    }
    assert es[c].at <= es[a].at;
    if j < a {
      assert es[j].at <= es[a].at && es[c'].at <= es[k].at;
    }
  }

  // ---- edges older than a given moment ----

  /** Between clear and sample the poller is confirming. */
  lemma {:induction false} ConfirmingStays(bs: seq<State>, es: seq<Event>, c: nat, m: nat)
    requires IsButtonRun(bs, es) && c < m <= |es| && es[c].act == PollClear
    requires forall i :: c < i < m ==> !es[i].act.PollPin?
    ensures bs[m].poller.Confirming?
  {
    if m == c + 1 {
      assert bs[m] == bs[c].Step(es[c]);
    } else {
      ConfirmingStays(bs, es, c, m - 1);
      assert bs[m] == bs[m - 1].Step(es[m - 1]);
    }
  }

  /** Only a clear takes the flag away. */
  lemma {:induction false} FlagStays(bs: seq<State>, es: seq<Event>, a: nat, b: nat)
    requires IsButtonRun(bs, es) && a <= b <= |es| && bs[a].edgeSeen
    requires forall i :: a <= i < b ==> es[i].act != PollClear
    ensures bs[b].edgeSeen
  {
    if a == b {
    } else {
      FlagStays(bs, es, a, b - 1);
      assert bs[b] == bs[b - 1].Step(es[b - 1]);
    }
  }

  /** `o` is a moment outside the poll, and not itself an edge. */
  ghost predicate OutsidePoll(bs: seq<State>, es: seq<Event>, o: nat)
    requires o < |es| < |bs|
  {
    bs[o].poller.Outside? && !es[o].act.Edge?
  }

  lemma NoClearOutside(bs: seq<State>, es: seq<Event>, o: nat, c: nat)
    requires IsButtonRun(bs, es) && o < |es| && c < |es| && OutsidePoll(bs, es, o) && es[c].act == PollClear
    requires forall i :: c < i < o ==> !es[i].act.PollPin?
    ensures o < c
  {
    assert bs[c].Enabled(es[c].act);
    if c < o {
      ConfirmingStays(bs, es, c, o);
    }
  }

  lemma OlderEdgeTakesFirstSample(bs: seq<State>, es: seq<Event>, o: nat, p: nat)
    requires IsButtonRun(bs, es) && o < p < |es| && es[p].act.PollPin? && OutsidePoll(bs, es, o)
    requires EdgeOf(bs, es, p) < o
    ensures bs[o].edgeSeen && forall m :: o < m < p ==> !es[m].act.PollPin?
  {
    SampledEdgeIsSettled(bs, es, p);
    var c := ClearOf(bs, es, p);
    NoClearOutside(bs, es, o, c);
    forall m | o < m < p
      ensures !es[m].act.PollPin?
    {
      if es[m].act.PollPin? {
        SampledEdgeIsSettled(bs, es, m);
        NoClearOutside(bs, es, o, ClearOf(bs, es, m));
        SamplesUseDistinctEdges(bs, es, m, p);
      }
    }
  }

  lemma NewerEdgeNeedsSample(bs: seq<State>, es: seq<Event>, o: nat, p: nat)
    requires IsButtonRun(bs, es) && o < p < |es| && es[p].act.PollPin? && OutsidePoll(bs, es, o)
    requires bs[o].edgeSeen && EdgeOf(bs, es, p) >= o
    ensures exists m :: o < m < p && es[m].act.PollPin?
  {
    SampledEdgeIsSettled(bs, es, p);
    var a, c := EdgeOf(bs, es, p), ClearOf(bs, es, p);
    assert bs[c].Enabled(es[c].act) && !bs[a].edgeSeen;
    if forall i :: o <= i < a ==> es[i].act != PollClear {
      FlagStays(bs, es, o, a);
    }
    var c' :| o <= c' < a && es[c'].act == PollClear;
    assert bs[c'].Enabled(es[c'].act);
    if forall i :: c' < i < c ==> !es[i].act.PollPin? {
      ConfirmingStays(bs, es, c', c);
    }
  }

  /**
   The edge behind a sample is older than a moment outside the poll exactly if the flag was set at that moment and the
   sample is the first one since.
   */
  lemma EdgeIsOlderIff(bs: seq<State>, es: seq<Event>, o: nat, p: nat)
    requires IsButtonRun(bs, es) && o < p < |es| && es[p].act.PollPin? && OutsidePoll(bs, es, o)
    ensures EdgeOf(bs, es, p) < o <==> bs[o].edgeSeen && forall m :: o < m < p ==> !es[m].act.PollPin?
  {
    if EdgeOf(bs, es, p) < o {
      OlderEdgeTakesFirstSample(bs, es, o, p);
    } else if bs[o].edgeSeen {
      NewerEdgeNeedsSample(bs, es, o, p);
    }
  }

  /** Without an edge since a moment outside the poll at which none was latched, no sample has been taken since. */
  lemma NoEdgeNoSample(bs: seq<State>, es: seq<Event>, o: nat, p: nat)
    requires IsButtonRun(bs, es) && o < |es| && p < |es| && es[p].act.PollPin?
    requires bs[o].poller.Outside? && !bs[o].edgeSeen && forall m :: o <= m < p ==> !es[m].act.Edge?
    ensures p < o
  {
    SampledEdgeIsSettled(bs, es, p);
    if o < p {
      EdgeIsOlderIff(bs, es, o, p);
    } else {
      assert bs[p].Enabled(es[p].act);
    }
  }

  /** The flag that is kept for it tells whether any press has been confirmed. */
  lemma {:induction false} ConfirmedIff(bs: seq<State>, es: seq<Event>, k: nat)
    requires IsButtonRun(bs, es) && k <= |es|
    ensures bs[k].pressConfirmed <==> HistoryAt(bs, es, k).presses > 0
  {
    if k == 0 {
    } else {
      ConfirmedIff(bs, es, k - 1);
      assert bs[k] == bs[k - 1].Step(es[k - 1]);
    }
  }

  /** With `n` presses confirmed, at least 30 ms times `n` have passed since boot. */
  lemma PressRate(bs: seq<State>, es: seq<Event>, k: nat)
    requires IsButtonRun(bs, es) && k <= |es|
    ensures DEBOUNCE_US * HistoryAt(bs, es, k).presses <= ClockBefore(es, k)
  {
    InvHolds(bs, es, k);
    var h := HistoryAt(bs, es, k);
    if h.clear >= 0 {
      assert es[h.clear].at <= es[k - 1].at;
    }
  }

  // ---- the samples of two presses can be closer than 30 ms ----

  /** One more event. */
  lemma Extend(bs: seq<State>, es: seq<Event>, e: Event) returns (bs': seq<State>, es': seq<Event>)
    requires IsButtonRun(bs, es) && bs[|es|].Enabled(e.act) && ClockBefore(es, |es|) <= e.at
    ensures IsButtonRun(bs', es') && es' == es + [e] && bs' == bs + [bs[|es|].Step(e)]
  {
    es' := es + [e];
    bs' := bs + [bs[|es|].Step(e)];
    forall i | 0 <= i < |es|
      ensures es'[i].at <= e.at
    {
      assert es[i].at <= es[|es| - 1].at;
    }
  }

  /** A poll of an edge that has settled, up to the point where its operands are read. */
  lemma PollUpToReads(bs: seq<State>, es: seq<Event>, now: nat) returns (bs': seq<State>, es': seq<Event>)
    requires IsButtonRun(bs, es) && ClockBefore(es, |es|) <= now
    requires bs[|es|].edgeSeen && bs[|es|].poller.Outside?
    ensures IsButtonRun(bs', es') && |es'| == |es| + 4 && es'[..|es|] == es && ClockBefore(es', |es'|) == now
    ensures var t := bs[|es|].edgeTime;
            bs'[|es'|] == bs[|es|].(poller := Measuring(Some(t % WORD), Some(t / WORD), Some(now)))
  {
    bs', es' := Extend(bs, es, Event(now, PollTest));
    bs', es' := Extend(bs', es', Event(now, PollReadLow));
    bs', es' := Extend(bs', es', Event(now, PollReadHigh));
    bs', es' := Extend(bs', es', Event(now, PollReadNow));
  }

  /** And on to the point where the flag is cleared. */
  lemma PollUpToClear(bs: seq<State>, es: seq<Event>, now: nat) returns (bs': seq<State>, es': seq<Event>)
    requires IsButtonRun(bs, es) && ClockBefore(es, |es|) <= now
    requires bs[|es|].edgeSeen && bs[|es|].poller.Outside? && bs[|es|].edgeTime + DEBOUNCE_US <= now
    ensures IsButtonRun(bs', es') && |es'| == |es| + 6 && es'[..|es|] == es && ClockBefore(es', |es'|) == now
    ensures bs'[|es'|] == bs[|es|].(edgeSeen := false, poller := Confirming)
  {
    bs', es' := PollUpToReads(bs, es, now);
    bs', es' := Extend(bs', es', Event(now, PollDecide));
    bs', es' := Extend(bs', es', Event(now, PollClear));
  }

  /** An edge that the interrupt takes between the clear and the pin sample belongs to the next press already. */
  lemma SamplesCanBeCloserThanDebounce()
    returns (bs: seq<State>, es: seq<Event>, j: nat, k: nat)
    ensures IsButtonRun(bs, es) && j < k < |es| && Confirms(es, j) && Confirms(es, k)
    ensures es[k].at < es[j].at + DEBOUNCE_US
  {
    bs, es := [BOOT_BUTTON], [];
    bs, es := Extend(bs, es, Event(0, Edge(BUTTON_PIN)));
    bs, es := PollUpToClear(bs, es, 30_000);
    bs, es := Extend(bs, es, Event(30_000, Edge(BUTTON_PIN)));
    j := |es|;
    bs, es := Extend(bs, es, Event(31_000, PollPin(0)));
    ghost var first := es;
    bs, es := PollUpToClear(bs, es, 60_000);
    assert es[j] == first[j];
    k := |es|;
    bs, es := Extend(bs, es, Event(60_000, PollPin(0)));
  }

  /** A set flag alone does not tell: its edge can end in a sample with the pin high, and a newer edge serve. */
  lemma SetFlagCanBeUsedUp() returns (bs: seq<State>, es: seq<Event>, o: nat, p: nat)
    ensures IsButtonRun(bs, es) && o < p < |es| && OutsidePoll(bs, es, o) && Confirms(es, p)
    ensures bs[o].edgeSeen && EdgeOf(bs, es, p) >= o
  {
    bs, es := [BOOT_BUTTON], [];
    bs, es := Extend(bs, es, Event(0, Edge(BUTTON_PIN)));
    o := |es|;
    bs, es := Extend(bs, es, Event(0, UsbIdle));
    bs, es := PollUpToClear(bs, es, 30_000);
    var m := |es|;
    bs, es := Extend(bs, es, Event(30_000, PollPin(1)));
    bs, es := Extend(bs, es, Event(30_000, Edge(BUTTON_PIN)));
    ghost var first, was := es, bs;
    bs, es := PollUpToClear(bs, es, 60_000);
    p := |es|;
    bs, es := Extend(bs, es, Event(60_000, PollPin(0)));
    assert es[m] == first[m] && es[o] == first[o] && first <= es;
    StatesOfPrefix(was, first, bs, es, o);
    EdgeIsOlderIff(bs, es, o, p);
  }

  // ---- exactly when the samples keep their distance ----

  /** `es'` goes on from `es`, which ends in a pin sample; the samples in it that follow come at least 30 ms later. */
  ghost predicate SamplesSpaced(bs': seq<State>, es: seq<Event>, es': seq<Event>) {
    IsButtonRun(bs', es') && es <= es' && 0 < |es| ==>
      forall k :: |es| <= k < |es'| && es'[k].act.PollPin? ==> es[|es| - 1].at + DEBOUNCE_US <= es'[k].at
  }

  /** The same of the confirmed presses alone. */
  ghost predicate PressesSpaced(bs': seq<State>, es: seq<Event>, es': seq<Event>) {
    IsButtonRun(bs', es') && es <= es' && 0 < |es| ==>
      forall k :: |es| <= k < |es'| && Confirms(es', k) ==> es[|es| - 1].at + DEBOUNCE_US <= es'[k].at
  }

  /** While the pin is sampled, an edge accepted at an earlier time is already waiting for the next poll. */
  predicate EdgeWaits(b: State, e: Event) {
    b.edgeSeen && b.edgeTime < e.at
  }

  /** A run is determined by its events. */
  lemma {:induction false} StatesOfPrefix(bs: seq<State>, es: seq<Event>, bs': seq<State>, es': seq<Event>, k: nat)
    requires IsButtonRun(bs, es) && IsButtonRun(bs', es') && es <= es' && k <= |es|
    ensures bs'[k] == bs[k]
  {
    if k == 0 {
    } else {
      StatesOfPrefix(bs, es, bs', es', k - 1);
      assert es'[k - 1] == es[k - 1];
    }
  }

  /** If no edge waits at the earlier sample, the edge behind the later one is no older than that sample. */
  lemma EdgeBehindNextSample(bs: seq<State>, es: seq<Event>, j: nat, k: nat)
    requires IsButtonRun(bs, es) && j < k < |es| && es[j].act.PollPin? && es[k].act.PollPin?
    requires !EdgeWaits(bs[j], es[j])
    ensures es[j].at + DEBOUNCE_US <= es[k].at
  {
    SampledEdgeIsSettled(bs, es, j);
    SampledEdgeIsSettled(bs, es, k);
    SamplesUseDistinctEdges(bs, es, j, k);
    var a, c := EdgeOf(bs, es, k), ClearOf(bs, es, k);
    if a < j {
      assert bs[j].edgeSeen && bs[j].edgeTime == es[a].at;
      assert es[c].at <= es[k].at;
    }
  }

  /** A waiting edge can be confirmed as soon as it has settled, which is less than 30 ms after this sample. */
  lemma WaitingEdgeIsTooClose(bs: seq<State>, es: seq<Event>) returns (bs': seq<State>, es': seq<Event>)
    requires IsButtonRun(bs, es) && 0 < |es| && es[|es| - 1].act.PollPin?
    requires EdgeWaits(bs[|es| - 1], es[|es| - 1])
    ensures IsButtonRun(bs', es') && es <= es' && |es| < |es'| && Confirms(es', |es'| - 1)
    ensures es'[|es'| - 1].at < es[|es| - 1].at + DEBOUNCE_US
  {
    var at, settled := es[|es| - 1].at, bs[|es|].edgeTime + DEBOUNCE_US;
    var now := if settled <= at then at else settled;
    assert bs[|es|] == bs[|es| - 1].Step(es[|es| - 1]);
    bs', es' := PollUpToClear(bs, es, now);
    bs', es' := Extend(bs', es', Event(now, PollPin(0)));
    assert es <= es';
  }

  /**
   Successive samples, and successive confirmed presses, are at least 30 ms apart in every continuation exactly if no
   edge of an earlier time waits in memory when the first pin sample is taken.
   */
  lemma SamplesStaySpacedIff(bs: seq<State>, es: seq<Event>)
    requires IsButtonRun(bs, es) && 0 < |es| && es[|es| - 1].act.PollPin?
    ensures (forall bs', es' :: SamplesSpaced(bs', es, es')) <==> !EdgeWaits(bs[|es| - 1], es[|es| - 1])
    ensures (forall bs', es' :: PressesSpaced(bs', es, es')) <==> !EdgeWaits(bs[|es| - 1], es[|es| - 1])
  {
    var j := |es| - 1;
    if EdgeWaits(bs[j], es[j]) {
      var bs', es' := WaitingEdgeIsTooClose(bs, es);
      assert !SamplesSpaced(bs', es, es') && !PressesSpaced(bs', es, es');
    } else {
      forall bs', es'
        ensures SamplesSpaced(bs', es, es') && PressesSpaced(bs', es, es')
      {
        if IsButtonRun(bs', es') && es <= es' {
          StatesOfPrefix(bs, es, bs', es', j);
          LaterSamplesAreSpaced(bs', es', j);
        }
      }
    }
  }

  lemma LaterSamplesAreSpaced(bs: seq<State>, es: seq<Event>, j: nat)
    requires IsButtonRun(bs, es) && j < |es| && es[j].act.PollPin? && !EdgeWaits(bs[j], es[j])
    ensures forall k :: j < k < |es| && es[k].act.PollPin? ==> es[j].at + DEBOUNCE_US <= es[k].at
  {
    forall k | j < k < |es| && es[k].act.PollPin?
      ensures es[j].at + DEBOUNCE_US <= es[k].at
    {
      EdgeBehindNextSample(bs, es, j, k);
    }
  }
}
