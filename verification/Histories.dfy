/** Change detection across all the books: what was published for each stock on a run of
    any events, fresh or not. */
module Histories {
  import opened Words
  import opened Events
  import opened Books
  import opened Gateways

  /** The updates published for one stock, in order. */
  function HistoryOf(outs: seq<Option<BboUpdate>>, stock: uint64): seq<BboUpdate> {
    if outs == [] then []
    else
      var out := outs[|outs| - 1];
      var before := HistoryOf(outs[..|outs| - 1], stock);
      if out.Some? && out.value.stock == stock then before + [out.value] else before
  }

  ghost predicate TrackedStock(g: Gateway, s: uint64, history: seq<BboUpdate>) {
    BookOr(g, s).stock == s && Tracked(BookOr(g, s), history)
  }

  /** For every stock the published history folds to the present best bid and offer and is
      numbered 0, 1, 2, ... */
  ghost predicate TrackedGateway(g: Gateway, outs: seq<Option<BboUpdate>>) {
    forall s :: TrackedStock(g, s, HistoryOf(outs, s))
  }

  lemma HistoryAfter(outs: seq<Option<BboUpdate>>, out: Option<BboUpdate>, s: uint64)
    ensures HistoryOf(outs + [out], s)
         == if out.Some? && out.value.stock == s then HistoryOf(outs, s) + [out.value] else HistoryOf(outs, s)
  {
  }

  lemma NewBookIsTracked(s: uint64)
    ensures Tracked(NewBook(s), [])
  {
  }

  lemma UpdateNamesItsStock(b: Book, e: ItchEvent)
    ensures BookStep(b, e).0.stock == b.stock
    ensures BookStep(b, e).1.Some? ==> BookStep(b, e).1.value.stock == b.stock
  {
  }

  /** One step extends the history of the stock the update names, and no other. */
  lemma TrackedStockStep(g: Gateway, e: ItchEvent, g': Gateway, out: Option<BboUpdate>,
                         history: uint64 -> seq<BboUpdate>, s: uint64)
    requires Next(g, e, g', out)
    requires forall t :: TrackedStock(g, t, history(t))
    ensures TrackedStock(g', s, if out.Some? && out.value.stock == s then history(s) + [out.value] else history(s))
  {
    hide Next, Tracked, BookStep;
    var t := StepsOneBook(g, e, g', out);
    assert TrackedStock(g, s, history(s));
    if t.Some? {
      assert TrackedStock(g, t.value, history(t.value));
      UpdateNamesItsStock(BookOr(g, t.value), e);
      if s == t.value {
        ChangeDetection(BookOr(g, s), e, history(s));
      }
    }
  }

  lemma TrackedStep(g: Gateway, e: ItchEvent, g': Gateway, out: Option<BboUpdate>, outs: seq<Option<BboUpdate>>)
    requires TrackedGateway(g, outs) && Next(g, e, g', out)
    ensures TrackedGateway(g', outs + [out])
  {
    hide Next, TrackedStock;
    forall s ensures TrackedStock(g', s, HistoryOf(outs + [out], s)) {
      HistoryAfter(outs, out, s);
      TrackedStockStep(g, e, g', out, (t: uint64) => HistoryOf(outs, t), s);
    }
  }

  /** On every run, for every stock: folding the published updates gives the book's present
      best bid and offer, and their numbers are 0, 1, 2, ... without a gap. */
  lemma {:induction false} RunIsTracked(states: seq<Gateway>, events: seq<ItchEvent>, outs: seq<Option<BboUpdate>>)
    requires IsTrace(states, events, outs)
    ensures TrackedGateway(states[|events|], outs)
    decreases |events|
  {
    if events == [] {
      forall s ensures TrackedStock(EMPTY_GATEWAY, s, HistoryOf(outs, s)) { NewBookIsTracked(s); }
    } else {
      hide Next, TrackedGateway;
      var k := |events| - 1;
      TraceInit(states, events, outs);
      RunIsTracked(states[..k + 1], events[..k], outs[..k]);
      TrackedStep(states[k], events[k], states[k + 1], outs[k], outs[..k]);
      assert outs == outs[..k] + [outs[k]];
    }
  }
}
