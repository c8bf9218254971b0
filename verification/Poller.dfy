/**
 packages/indexer/src/index.ts: the polling loop and its cursor store. The chain, the RPC node, the
 handler and the store's failures are an environment asked turn by turn; a run is any number of
 turns, and restarting after a throw or a stop goes on with the next turn on the same store.
 */
module Poller {
  import opened Results

  datatype Cursor = Cursor(txDigest: string, eventSeq: string)
  datatype Event = Event(id: Cursor, body: string)
  datatype Page = Page(data: seq<Event>, nextCursor: Option<Cursor>, hasNextPage: bool)

  /** A save may fail before or after the cursor reached the store. */
  datatype SaveOutcome = Saved | Lost | SavedThenThrew

  datatype Env = Env(
    log: nat -> seq<Event>,
    reply: (nat, Option<Cursor>, nat) -> Page,
    loadThrows: nat -> bool,
    queryThrows: nat -> bool,
    handlerThrows: (nat, nat) -> bool,
    save: nat -> SaveOutcome,
    cancelled: nat -> bool)

  // ---- the log and its cursors ----------------------------------------------------------------------

  ghost predicate Unique(log: seq<Event>) {
    forall i, j :: 0 <= i < j < |log| ==> log[i].id != log[j].id
  }

  ghost predicate Known(log: seq<Event>, saved: Option<Cursor>) {
    saved.Some? ==> exists i :: 0 <= i < |log| && log[i].id == saved.value
  }

  /** How many events of the log a cursor has behind it. */
  function Position(log: seq<Event>, saved: Option<Cursor>): (p: nat)
    ensures p <= |log|
  {
    if saved.None? || log == [] then 0
    else if log[|log| - 1].id == saved.value then |log|
    else Position(log[..|log| - 1], saved)
  }

  /** A page is the next stretch of the log after the cursor, at most limit events long. */
  ghost predicate PageOk(log: seq<Event>, saved: Option<Cursor>, limit: nat, page: Page) {
    var p, n := Position(log, saved), |page.data|;
    && n <= limit && p + n <= |log| && page.data == log[p..p + n]
    && (n > 0 ==> page.nextCursor == Some(page.data[n - 1].id))
    && (n == 0 ==> page.nextCursor == None || page.nextCursor == saved)
  }

  ghost predicate Grows(env: Env, t: nat) {
    env.log(t) <= env.log(t + 1)
  }

  /** An append-only log of distinct events, and a node that answers from it. */
  ghost predicate Faithful(env: Env, limit: nat) {
    && (forall t: nat :: Grows(env, t))
    && (forall t: nat :: Unique(env.log(t)))
    && (forall t: nat, saved :: Known(env.log(t), saved)
                                ==> PageOk(env.log(t), saved, limit, env.reply(t, saved, limit)))
  }

  /** Without a cursor nothing is behind; the cursor of event i has i + 1 events behind it. */
  lemma {:induction false} PositionOf(log: seq<Event>, i: nat)
    requires Unique(log) && i < |log|
    ensures Position(log, Some(log[i].id)) == i + 1 && Position(log, None) == 0
  {
    var m := |log| - 1;
    if i < m {
      assert log[..m][i] == log[i];
      PositionOf(log[..m], i);
    }
  }

  /** Appending to the log does not move a cursor. */
  lemma {:induction false} PositionStays(log: seq<Event>, log': seq<Event>, saved: Option<Cursor>)
    requires log <= log' && Unique(log') && Known(log, saved)
    ensures Unique(log) && Known(log', saved) && Position(log', saved) == Position(log, saved)
  {
    assert log == log'[..|log|];
    if saved.Some? {
      var i :| 0 <= i < |log| && log[i].id == saved.value;
      assert log'[i] == log[i];
      PositionOf(log, i);
      PositionOf(log', i);
    }
  }

  lemma {:induction false} LogGrows(env: Env, limit: nat, t: nat, u: nat)
    requires Faithful(env, limit) && t <= u
    ensures env.log(t) <= env.log(u)
    decreases u - t
  {
    if t < u {
      assert Grows(env, t);
      LogGrows(env, limit, t + 1, u);
    }
  }

  // ---- one turn, and runs of turns --------------------------------------------------------------------

  datatype Outcome = Outcome(handled: seq<Event>, saved: Option<Cursor>, thrown: bool)

  /** How many events of the page the handler gets through, having done i. */
  function HandledCount(env: Env, t: nat, size: nat, i: nat): (n: nat)
    requires i <= size
    ensures i <= n <= size
    ensures forall k :: i <= k < n ==> !env.handlerThrows(t, k)
    ensures n < size ==> env.handlerThrows(t, n)
    decreases size - i
  {
    if i == size || env.handlerThrows(t, i) then i else HandledCount(env, t, size, i + 1)
  }

  /** One pass of the loop: load, query, handle each event, save. */
  function Turn(env: Env, limit: nat, t: nat, saved: Option<Cursor>): Outcome {
    if env.loadThrows(t) || env.queryThrows(t) then Outcome([], saved, true)
    else
      var page := env.reply(t, saved, limit);
      var n := HandledCount(env, t, |page.data|, 0);
      if n < |page.data| then Outcome(page.data[..n], saved, true)
      else if page.nextCursor.None? then Outcome(page.data, saved, false)
      else
        match env.save(t)
        case Saved => Outcome(page.data, page.nextCursor, false)
        case Lost => Outcome(page.data, saved, true)
        case SavedThenThrew => Outcome(page.data, page.nextCursor, true)
  }

  /** The stored cursor after n turns from turn t on. */
  function SavedAfter(env: Env, limit: nat, t: nat, n: nat, saved: Option<Cursor>): Option<Cursor>
    decreases n, 0
  {
    if n == 0 then saved else Taken(env, limit, t, n - 1, saved).saved
  }

  /** What turn t + m does in a run from turn t on. */
  function Taken(env: Env, limit: nat, t: nat, m: nat, saved: Option<Cursor>): Outcome
    decreases m, 1
  {
    Turn(env, limit, t + m, SavedAfter(env, limit, t, m, saved))
  }

  /** All events handled in n turns, in order. */
  function Handled(env: Env, limit: nat, t: nat, n: nat, saved: Option<Cursor>): seq<Event> {
    if n == 0 then [] else Handled(env, limit, t, n - 1, saved) + Taken(env, limit, t, n - 1, saved).handled
  }

  // ---- the code -----------------------------------------------------------------------------------

  class InMemoryCursorStore {
    var data: map<string, Cursor>

    constructor ()
      ensures data == map[]
    {
      data := map[];
    }

    function Get(key: string): Option<Cursor>
      reads this
    {
      if key in data then Some(data[key]) else None
    }

    method Load(key: string) returns (cursor: Option<Cursor>)
      ensures cursor == Get(key)
    {
      cursor := if key in data then Some(data[key]) else None;
    }

    method Save(key: string, cursor: Cursor)
      modifies this
      ensures data == old(data)[key := cursor]
    {
      data := data[key := cursor];
    }
  }

  /** The awaited handler calls of one page, up to the first that throws; done are the events whose call returned. */
  method HandlePage(env: Env, t: nat, page: Page) returns (done: seq<Event>, threw: bool)
    ensures |done| <= |page.data| && done == page.data[..|done|]
    ensures forall i :: 0 <= i < |done| ==> !env.handlerThrows(t, i)
    ensures threw <==> |done| < |page.data|
    ensures threw ==> env.handlerThrows(t, |done|)
    ensures |done| == HandledCount(env, t, |page.data|, 0)
  {
    done := [];
    for i := 0 to |page.data|
      invariant done == page.data[..i]
      invariant forall k :: 0 <= k < i ==> !env.handlerThrows(t, k)
      invariant HandledCount(env, t, |page.data|, 0) == HandledCount(env, t, |page.data|, i)
    {
      if env.handlerThrows(t, i) {
        return done, true;
      }
      done := done + [page.data[i]];
    }
    threw := false;
  }

  /** One pass of the loop body. A throw rejects the promise of tick and ends the loop. */
  method OnePass(store: InMemoryCursorStore, key: string, env: Env, limit: nat, t: nat)
    returns (handled: seq<Event>, thrown: bool)
    modifies store
    ensures Outcome(handled, store.Get(key), thrown) == Turn(env, limit, t, old(store.Get(key)))
    ensures forall k :: k != key ==> store.Get(k) == old(store.Get(k))
  {
    if env.loadThrows(t) {
      return [], true;
    }
    var cursor := store.Load(key);
    if env.queryThrows(t) {
      return [], true;
    }
    var page := env.reply(t, cursor, limit);
    handled, thrown := HandlePage(env, t, page);
    if thrown {
      return;
    }
    assert handled == page.data;
    if page.nextCursor.Some? {
      match env.save(t) {
        case Saved =>
          store.Save(key, page.nextCursor.value);
        case Lost =>
          thrown := true;
        case SavedThenThrew =>
          store.Save(key, page.nextCursor.value);
          thrown := true;
      }
    }
  }

  /** n passes from turn t on, none begun after a stop: these events handled, and the stored cursor is now this. */
  ghost predicate Ran(env: Env, limit: nat, t: nat, saved: Option<Cursor>, n: nat, handled: seq<Event>,
                      now: Option<Cursor>) {
    && handled == Handled(env, limit, t, n, saved) && now == SavedAfter(env, limit, t, n, saved)
    && forall u :: t <= u < t + n ==> !env.cancelled(u)
  }

  ghost predicate FailureFree(env: Env, limit: nat, t: nat, n: nat, saved: Option<Cursor>) {
    forall m :: 0 <= m < n ==> !Taken(env, limit, t, m, saved).thrown
  }

  /** Why a run ended: the last pass threw and none before it, or the loop was stopped, or it was watched no further. */
  ghost predicate Ended(env: Env, limit: nat, t: nat, turns: nat, saved: Option<Cursor>, n: nat, thrown: bool) {
    && n <= turns
    && if thrown then
         n > 0 && FailureFree(env, limit, t, n - 1, saved) && Taken(env, limit, t, n - 1, saved).thrown
       else
         FailureFree(env, limit, t, n, saved) && (n < turns ==> env.cancelled(t + n))
  }

  lemma {:induction false} RanOn(env: Env, limit: nat, t: nat, saved: Option<Cursor>, n: nat, handled: seq<Event>,
                                 now: Option<Cursor>, r: Outcome)
    requires Ran(env, limit, t, saved, n, handled, now) && !env.cancelled(t + n)
    requires r == Turn(env, limit, t + n, now)
    ensures Ran(env, limit, t, saved, n + 1, handled + r.handled, r.saved)
    ensures Taken(env, limit, t, n, saved) == r
  {
  }

  /** The tick loop, watched for at most turns passes from turn t on. */
  method Tick(store: InMemoryCursorStore, key: string, env: Env, limit: nat, t: nat, turns: nat)
    returns (handled: seq<Event>, n: nat, thrown: bool)
    modifies store
    ensures Ran(env, limit, t, old(store.Get(key)), n, handled, store.Get(key))
    ensures Ended(env, limit, t, turns, old(store.Get(key)), n, thrown)
    ensures forall k :: k != key ==> store.Get(k) == old(store.Get(k))
  {
    handled, n, thrown := [], 0, false;
    while n < turns && !env.cancelled(t + n)
      invariant n <= turns && FailureFree(env, limit, t, n, old(store.Get(key)))
      invariant Ran(env, limit, t, old(store.Get(key)), n, handled, store.Get(key))
      invariant forall k :: k != key ==> store.Get(k) == old(store.Get(k))
    {
      ghost var now := store.Get(key);
      var more;
      more, thrown := OnePass(store, key, env, limit, t + n);
      RanOn(env, limit, t, old(store.Get(key)), n, handled, now, Outcome(more, store.Get(key), thrown));
      handled := handled + more;
      n := n + 1;
      if thrown {
        return;
      }
    }
  }

  /** startPolling: a fresh store and pages of 50 unless the options say otherwise. */
  method StartPolling(store: InMemoryCursorStore?, cursorKey: string, env: Env, limit: Option<nat>, t: nat, turns: nat)
    returns (used: InMemoryCursorStore, handled: seq<Event>, n: nat, thrown: bool)
    modifies store
    ensures store != null ==> used == store
    ensures store == null ==> fresh(used)
    ensures var size := if limit.Some? then limit.value else 50;
            var saved := if store != null then old(store.Get(cursorKey)) else None;
            Ran(env, size, t, saved, n, handled, used.Get(cursorKey)) && Ended(env, size, t, turns, saved, n, thrown)
    ensures forall k :: k != cursorKey ==> used.Get(k) == if store != null then old(store.Get(k)) else None
  {
    if store != null {
      used := store;
    } else {
      used := new InMemoryCursorStore();
    }
    var size := if limit.Some? then limit.value else 50;
    handled, n, thrown := Tick(used, cursorKey, env, size, t, turns);
  }

  /** Polling for a turns, stopping or failing, and starting again on the same store is one longer run. */
  lemma {:induction false} RestartsCompose(env: Env, limit: nat, t: nat, a: nat, b: nat, saved: Option<Cursor>)
    ensures SavedAfter(env, limit, t, a + b, saved)
            == SavedAfter(env, limit, t + a, b, SavedAfter(env, limit, t, a, saved))
    ensures Handled(env, limit, t, a + b, saved)
         == Handled(env, limit, t, a, saved) + Handled(env, limit, t + a, b, SavedAfter(env, limit, t, a, saved))
  {
    if b > 0 {
      var c := b - 1;
      RestartsCompose(env, limit, t, a, c, saved);
      assert a + b - 1 == a + c && t + (a + c) == t + a + c;
    }
  }

  // ---- what one turn does -----------------------------------------------------------------------------

  /** Some handler call of the page would throw. */
  ghost predicate SomeThrows(env: Env, t: nat, size: nat) {
    exists i :: 0 <= i < size && env.handlerThrows(t, i)
  }

  /**
   A turn in terms of the environment alone. A failing load or query ends it before anything is
   handled. Otherwise exactly the events before the first throwing handler call are handled; if there
   is one, nothing is saved; if there is none, all are handled and the page's cursor is saved, as far
   as the store lets it.
   */
  lemma {:induction false} TurnOutcome(env: Env, limit: nat, t: nat, saved: Option<Cursor>)
    ensures var (r, page) := (Turn(env, limit, t, saved), env.reply(t, saved, limit));
            if env.loadThrows(t) || env.queryThrows(t) then r.handled == [] && r.saved == saved && r.thrown
            else
              && |r.handled| <= |page.data| && r.handled == page.data[..|r.handled|]
              && (forall i :: 0 <= i < |r.handled| ==> !env.handlerThrows(t, i))
              && if SomeThrows(env, t, |page.data|) then
                   r.thrown && r.saved == saved && |r.handled| < |page.data| && env.handlerThrows(t, |r.handled|)
                 else
                   && r.handled == page.data
                   && r.saved == (if page.nextCursor.Some? && !env.save(t).Lost? then page.nextCursor else saved)
                   && (r.thrown <==> page.nextCursor.Some? && !env.save(t).Saved?)
  {
    var page := env.reply(t, saved, limit);
    var n := HandledCount(env, t, |page.data|, 0);
    assert n < |page.data| ==> env.handlerThrows(t, n);
  }

  /** Turn t + m got a page for the cursor stored then, and handler call i on it, for event e, was made and returned. */
  ghost predicate CallReturned(env: Env, limit: nat, t: nat, m: nat, saved: Option<Cursor>, i: nat, e: Event) {
    var u, page := t + m, env.reply(t + m, SavedAfter(env, limit, t, m, saved), limit);
    && !env.loadThrows(u) && !env.queryThrows(u)
    && i < |page.data| && page.data[i] == e && forall k :: 0 <= k <= i ==> !env.handlerThrows(u, k)
  }

  /** Some handler call for e returned in the first n turns. */
  ghost predicate Delivered(env: Env, limit: nat, t: nat, n: nat, saved: Option<Cursor>, e: Event) {
    exists m, i :: 0 <= m < n && 0 <= i && CallReturned(env, limit, t, m, saved, i, e)
  }

  lemma {:induction false} TakenDelivers(env: Env, limit: nat, t: nat, m: nat, saved: Option<Cursor>, e: Event)
    ensures e in Taken(env, limit, t, m, saved).handled
       <==> exists i :: 0 <= i && CallReturned(env, limit, t, m, saved, i, e)
  {
    var u, now := t + m, SavedAfter(env, limit, t, m, saved);
    var r, page := Taken(env, limit, t, m, saved), env.reply(u, now, limit);
    TurnOutcome(env, limit, u, now);
    if e in r.handled {
      var i :| 0 <= i < |r.handled| && r.handled[i] == e;
      assert CallReturned(env, limit, t, m, saved, i, e);
    }
    if i: nat :| CallReturned(env, limit, t, m, saved, i, e) {
      assert i < |r.handled| && r.handled[i] == e;
    }
  }

  /** The handled events are those some handler call returned for. */
  lemma {:induction false} HandledIsDelivered(env: Env, limit: nat, t: nat, n: nat, saved: Option<Cursor>, e: Event)
    ensures e in Handled(env, limit, t, n, saved) <==> Delivered(env, limit, t, n, saved, e)
  {
    if n > 0 {
      var m := n - 1;
      HandledIsDelivered(env, limit, t, m, saved, e);
      TakenDelivers(env, limit, t, m, saved, e);
      DeliveredStep(env, limit, t, m, saved, e);
    }
  }

  lemma {:induction false} DeliveredStep(env: Env, limit: nat, t: nat, m: nat, saved: Option<Cursor>, e: Event)
    ensures Delivered(env, limit, t, m + 1, saved, e)
       <==> Delivered(env, limit, t, m, saved, e)
            || exists i :: 0 <= i && CallReturned(env, limit, t, m, saved, i, e)
  {
  }

  // ---- what holds over every run ----------------------------------------------------------------------

  /** A turn handles a beginning of the page, and saves the page's cursor only behind all of it. */
  lemma {:induction false} TurnShape(env: Env, limit: nat, t: nat, saved: Option<Cursor>)
    ensures var (r, page) := (Turn(env, limit, t, saved), env.reply(t, saved, limit));
            && |r.handled| <= |page.data| && r.handled == page.data[..|r.handled|]
            && (r.saved == saved || (r.saved == page.nextCursor && page.nextCursor.Some? && r.handled == page.data))
            && (!r.thrown ==> r.handled == page.data && (page.nextCursor.Some? ==> r.saved == page.nextCursor))
  {
  }

  /** The cursor of a page stands behind its last event. */
  lemma {:induction false} PageEnd(log: seq<Event>, saved: Option<Cursor>, limit: nat, page: Page)
    requires PageOk(log, saved, limit, page) && Unique(log) && Known(log, saved)
    ensures page.nextCursor.Some?
            ==> Known(log, page.nextCursor)
                && Position(log, page.nextCursor) == Position(log, saved) + |page.data|
  {
    var p, n := Position(log, saved), |page.data|;
    if n > 0 {
      assert page.data[n - 1] == log[p + n - 1];
      PositionOf(log, p + n - 1);
    }
  }

  /** One turn handles a stretch of the log from the cursor on and never saves past it. */
  lemma {:induction false} TurnKeeps(env: Env, limit: nat, t: nat, saved: Option<Cursor>)
    requires Faithful(env, limit) && Known(env.log(t), saved)
    ensures var (r, log) := (Turn(env, limit, t, saved), env.log(t));
            var (p, q) := (Position(log, saved), Position(log, saved) + |r.handled|);
            && Known(log, r.saved) && q <= |log| && r.handled == log[p..q] && |r.handled| <= limit
            && (Position(log, r.saved) == p || Position(log, r.saved) == q)
            && (!r.thrown ==> Position(log, r.saved) == q)
  {
    var log, page := env.log(t), env.reply(t, saved, limit);
    assert PageOk(log, saved, limit, page);
    TurnShape(env, limit, t, saved);
    PageEnd(log, saved, limit, page);
  }

  /** How far the stored cursor is after n turns. */
  function Reached(env: Env, limit: nat, t: nat, n: nat, saved: Option<Cursor>): (p: nat)
    ensures p <= |env.log(t + n)|
  {
    Position(env.log(t + n), SavedAfter(env, limit, t, n, saved))
  }

  lemma {:induction false} LastTurn(env: Env, limit: nat, t: nat, m: nat, n: nat, u: nat, saved: Option<Cursor>)
    requires n == m + 1 && u == t + m
    ensures Taken(env, limit, t, m, saved) == Turn(env, limit, u, SavedAfter(env, limit, t, m, saved))
    ensures SavedAfter(env, limit, t, n, saved) == Turn(env, limit, u, SavedAfter(env, limit, t, m, saved)).saved
  {
  }

  lemma {:induction false} SavedKnown(env: Env, limit: nat, t: nat, n: nat, saved: Option<Cursor>)
    requires Faithful(env, limit) && Known(env.log(t), saved)
    ensures Known(env.log(t + n), SavedAfter(env, limit, t, n, saved))
  {
    if n > 0 {
      var m := n - 1;
      SavedKnown(env, limit, t, m, saved);
      StillKnown(env, limit, t, m, saved);
    }
  }

  lemma {:induction false} StillKnown(env: Env, limit: nat, t: nat, m: nat, saved: Option<Cursor>)
    requires Faithful(env, limit) && Known(env.log(t + m), SavedAfter(env, limit, t, m, saved))
    ensures Known(env.log(t + m + 1), SavedAfter(env, limit, t, m + 1, saved))
  {
    var u, n := t + m, m + 1;
    LastTurn(env, limit, t, m, n, u, saved);
    TurnKeeps(env, limit, u, SavedAfter(env, limit, t, m, saved));
    assert Grows(env, u);
    PositionStays(env.log(u), env.log(u + 1), SavedAfter(env, limit, t, n, saved));
  }

  /** Turn m of a run handles log[from..to]; the next one starts at next. */
  ghost predicate Stretch(log: seq<Event>, limit: nat, r: Outcome, from: nat, to: nat, next: nat) {
    && from <= to <= |log| && to <= from + limit && r.handled == log[from..to]
    && (next == to || (next == from && r.thrown))
  }

  /**
   From one turn to the next, restarts included: each turn handles a stretch of at most limit events
   that starts at the stored cursor; the next turn starts at its end, unless this one threw, and then
   at its end or once more at its start.
   */
  lemma {:induction false} TurnsContinue(env: Env, limit: nat, t: nat, m: nat, saved: Option<Cursor>)
    requires Faithful(env, limit) && Known(env.log(t), saved)
    ensures env.log(t + m) <= env.log(t + m + 1) && Unique(env.log(t + m + 1))
    ensures var (r, from) := (Taken(env, limit, t, m, saved), Reached(env, limit, t, m, saved));
            Stretch(env.log(t + m), limit, r, from, from + |r.handled|, Reached(env, limit, t, m + 1, saved))
  {
    var u, n := t + m, m + 1;
    LastTurn(env, limit, t, m, n, u, saved);
    SavedKnown(env, limit, t, m, saved);
    TurnKeeps(env, limit, u, SavedAfter(env, limit, t, m, saved));
    assert Grows(env, u);
    PositionStays(env.log(u), env.log(u + 1), SavedAfter(env, limit, t, n, saved));
  }

  /** Every event from one place of the log to another is among the handled ones. */
  ghost predicate AllHandled(log: seq<Event>, from: nat, to: nat, handled: seq<Event>) {
    from <= to <= |log| && forall i :: from <= i < to ==> log[i] in handled
  }

  /** Whatever throws and however often polling is restarted, no event behind the saved cursor is unhandled. */
  lemma {:induction false} NothingSkipped(env: Env, limit: nat, t: nat, n: nat, saved: Option<Cursor>)
    requires Faithful(env, limit) && Known(env.log(t), saved)
    ensures AllHandled(env.log(t + n), Position(env.log(t), saved), Reached(env, limit, t, n, saved),
                       Handled(env, limit, t, n, saved))
  {
    if n > 0 {
      var m := n - 1;
      var u, r := t + m, Taken(env, limit, t, m, saved);
      NothingSkipped(env, limit, t, m, saved);
      TurnsContinue(env, limit, t, m, saved);
      OneMoreStretch(env.log(u), env.log(u + 1), limit, r, Position(env.log(t), saved),
                     Reached(env, limit, t, m, saved), Reached(env, limit, t, n, saved),
                     Handled(env, limit, t, m, saved));
    }
  }

  /** Every event behind the saved cursor was given to a handler call that returned. */
  lemma {:induction false} EveryEventDelivered(env: Env, limit: nat, t: nat, n: nat, saved: Option<Cursor>, i: nat)
    requires Faithful(env, limit) && Known(env.log(t), saved)
    requires Position(env.log(t), saved) <= i < Reached(env, limit, t, n, saved)
    ensures Delivered(env, limit, t, n, saved, env.log(t + n)[i])
  {
    NothingSkipped(env, limit, t, n, saved);
    HandledIsDelivered(env, limit, t, n, saved, env.log(t + n)[i]);
  }

  lemma {:induction false} OneMoreStretch(log: seq<Event>, log': seq<Event>, limit: nat, r: Outcome, from: nat, at: nat,
                                          next: nat, handled: seq<Event>)
    requires log <= log' && AllHandled(log, from, at, handled) && Stretch(log, limit, r, at, at + |r.handled|, next)
    ensures AllHandled(log', from, next, handled + r.handled)
  {
    forall i | from <= i < next
      ensures log'[i] in handled + r.handled
    {
      assert log'[i] == log[i];
      if i >= at {
        assert r.handled[i - at] == log[i];
      }
    }
  }

  /** The handled events are the stretch of the log from the first cursor to the stored one, in order. */
  ghost predicate HandledOnce(env: Env, limit: nat, t: nat, n: nat, saved: Option<Cursor>) {
    var from, to := Position(env.log(t), saved), Reached(env, limit, t, n, saved);
    from <= to && Handled(env, limit, t, n, saved) == env.log(t + n)[from..to]
  }

  /** Without failures every event is handled exactly once, in log order, up to the saved cursor. */
  lemma {:induction false} ExactlyOnce(env: Env, limit: nat, t: nat, n: nat, saved: Option<Cursor>)
    requires Faithful(env, limit) && Known(env.log(t), saved) && FailureFree(env, limit, t, n, saved)
    ensures HandledOnce(env, limit, t, n, saved)
  {
    if n > 0 {
      var m := n - 1;
      ExactlyOnce(env, limit, t, m, saved);
      OneMoreHandled(env, limit, t, m, saved);
    }
  }

  lemma {:induction false} OneMoreHandled(env: Env, limit: nat, t: nat, m: nat, saved: Option<Cursor>)
    requires Faithful(env, limit) && Known(env.log(t), saved) && HandledOnce(env, limit, t, m, saved)
    requires !Taken(env, limit, t, m, saved).thrown
    ensures HandledOnce(env, limit, t, m + 1, saved)
  {
    var u, r, at := t + m, Taken(env, limit, t, m, saved), Reached(env, limit, t, m, saved);
    TurnsContinue(env, limit, t, m, saved);
    Extends(env.log(u), env.log(u + 1), Position(env.log(t), saved), at, at + |r.handled|);
  }

  lemma {:induction false} Extends(log: seq<Event>, log': seq<Event>, a: nat, p: nat, q: nat)
    requires log <= log' && a <= p <= q <= |log|
    ensures log[a..p] + log[p..q] == log'[a..q]
  {
  }

  /** How many of the turns threw. */
  function ThrowCount(env: Env, limit: nat, t: nat, n: nat, saved: Option<Cursor>): nat {
    if n == 0 then 0
    else ThrowCount(env, limit, t, n - 1, saved) + if Taken(env, limit, t, n - 1, saved).thrown then 1 else 0
  }

  ghost predicate CountOk(log: seq<Event>, handled: seq<Event>, i: nat, throws: nat, reached: nat)
    requires i < |log|
  {
    multiset(handled)[log[i]] <= throws + if i < reached then 1 else 0
  }

  ghost predicate Bounded(env: Env, limit: nat, t: nat, n: nat, saved: Option<Cursor>, i: nat)
    requires i < |env.log(t + n)|
  {
    CountOk(env.log(t + n), Handled(env, limit, t, n, saved), i, ThrowCount(env, limit, t, n, saved),
            Reached(env, limit, t, n, saved))
  }

  /** An event is handled again only after a turn that threw: at most once more for each of them. */
  lemma {:induction false} RepeatsBounded(env: Env, limit: nat, t: nat, n: nat, saved: Option<Cursor>, i: nat)
    requires Faithful(env, limit) && Known(env.log(t), saved) && i < |env.log(t + n)|
    ensures Bounded(env, limit, t, n, saved, i)
  {
    if n > 0 {
      var m := n - 1;
      if i < |env.log(t + m)| {
        RepeatsBounded(env, limit, t, m, saved, i);
      }
      OneMoreCount(env, limit, t, m, saved, i);
    }
  }

  lemma {:induction false} OneMoreCount(env: Env, limit: nat, t: nat, m: nat, saved: Option<Cursor>, i: nat)
    requires Faithful(env, limit) && Known(env.log(t), saved) && i < |env.log(t + m + 1)|
    requires i < |env.log(t + m)| ==> Bounded(env, limit, t, m, saved, i)
    ensures Bounded(env, limit, t, m + 1, saved, i)
  {
    var log, log', r := env.log(t + m), env.log(t + m + 1), Taken(env, limit, t, m, saved);
    TurnsContinue(env, limit, t, m, saved);
    if i >= |log| {
      NotYet(env, limit, t, m, saved, log', i);
    }
    CountAdds(log, log', limit, r, Reached(env, limit, t, m, saved), Reached(env, limit, t, m + 1, saved),
              Handled(env, limit, t, m, saved), i, ThrowCount(env, limit, t, m, saved));
  }

  lemma {:induction false} CountAdds(log: seq<Event>, log': seq<Event>, limit: nat, r: Outcome, at: nat, next: nat,
                                     handled: seq<Event>, i: nat, throws: nat)
    requires log <= log' && Unique(log') && i < |log'| && Stretch(log, limit, r, at, at + |r.handled|, next)
    requires if i < |log| then CountOk(log, handled, i, throws, at) else log'[i] !in handled
    ensures CountOk(log', handled + r.handled, i, throws + if r.thrown then 1 else 0, next)
  {
    var to := at + |r.handled|;
    CountInStretch(log', at, to, i);
    assert r.handled == log'[at..to];
    assert i < |log| ==> log[i] == log'[i];
  }

  /** In a stretch of a log of distinct events each event stands at most once, and only if its place is inside. */
  lemma {:induction false} CountInStretch(log: seq<Event>, p: nat, q: nat, i: nat)
    requires Unique(log) && p <= q <= |log| && i < |log|
    ensures multiset(log[p..q])[log[i]] == if p <= i < q then 1 else 0
    decreases q - p
  {
    if p < q {
      CountInStretch(log, p, q - 1, i);
      assert log[p..q] == log[p..q - 1] + [log[q - 1]];
    }
  }

  /** An event not in the log yet has not been handled. */
  lemma {:induction false} NotYet(env: Env, limit: nat, t: nat, n: nat, saved: Option<Cursor>, log': seq<Event>, i: nat)
    requires Faithful(env, limit) && Known(env.log(t), saved) && env.log(t + n) <= log' && Unique(log')
    requires |env.log(t + n)| <= i < |log'|
    ensures log'[i] !in Handled(env, limit, t, n, saved)
  {
    if n > 0 {
      var m := n - 1;
      var log, r := env.log(t + m), Taken(env, limit, t, m, saved);
      TurnsContinue(env, limit, t, m, saved);
      NotYet(env, limit, t, m, saved, log', i);
      NotInStretch(log, log', limit, r, Reached(env, limit, t, m, saved), Reached(env, limit, t, n, saved), i);
    }
  }

  lemma {:induction false} NotInStretch(log: seq<Event>, log': seq<Event>, limit: nat, r: Outcome, at: nat, next: nat,
                                        i: nat)
    requires log <= log' && Unique(log') && |log| <= i < |log'| && Stretch(log, limit, r, at, at + |r.handled|, next)
    ensures log'[i] !in r.handled
  {
    forall j | 0 <= j < |r.handled|
      ensures r.handled[j] != log'[i]
    {
      assert r.handled[j] == log'[at + j];
    }
  }

  /** A node that fills its pages: as many events as there are, up to the limit. */
  ghost predicate FullPages(env: Env, limit: nat) {
    forall t: nat, saved :: Known(env.log(t), saved) ==>
      |env.reply(t, saved, limit).data| == Lesser(limit, |env.log(t)| - Position(env.log(t), saved))
  }

  function Lesser(x: int, y: int): int {
    if x <= y then x else y
  }

  ghost predicate CaughtUp(env: Env, limit: nat, t: nat, n: nat, saved: Option<Cursor>) {
    Reached(env, limit, t, n, saved) >= Lesser(|env.log(t)|, Position(env.log(t), saved) + n * limit)
  }

  /** Without failures and with full pages, n turns get through n * limit events or the whole log there was. */
  lemma {:induction false} CatchesUp(env: Env, limit: nat, t: nat, n: nat, saved: Option<Cursor>)
    requires Faithful(env, limit) && FullPages(env, limit) && Known(env.log(t), saved)
    requires FailureFree(env, limit, t, n, saved)
    ensures CaughtUp(env, limit, t, n, saved)
  {
    if n > 0 {
      var m := n - 1;
      CatchesUp(env, limit, t, m, saved);
      OneMorePage(env, limit, t, m, saved);
    }
  }

  lemma {:induction false} OneMorePage(env: Env, limit: nat, t: nat, m: nat, saved: Option<Cursor>)
    requires Faithful(env, limit) && FullPages(env, limit) && Known(env.log(t), saved)
    requires !Taken(env, limit, t, m, saved).thrown && CaughtUp(env, limit, t, m, saved)
    ensures CaughtUp(env, limit, t, m + 1, saved)
  {
    var u, n, from := t + m, m + 1, Position(env.log(t), saved);
    LogGrows(env, limit, t, u);
    FullStep(env, limit, t, m, n, u, saved);
    Closer(Reached(env, limit, t, m, saved), Reached(env, limit, t, n, saved), |env.log(t)|, |env.log(u)|, limit, from,
           m, n);
  }

  lemma {:induction false} FullStep(env: Env, limit: nat, t: nat, m: nat, n: nat, u: nat, saved: Option<Cursor>)
    requires Faithful(env, limit) && FullPages(env, limit) && Known(env.log(t), saved) && n == m + 1 && u == t + m
    requires !Taken(env, limit, t, m, saved).thrown
    ensures Reached(env, limit, t, n, saved)
            == Reached(env, limit, t, m, saved) + Lesser(limit, |env.log(u)| - Reached(env, limit, t, m, saved))
  {
    SavedKnown(env, limit, t, m, saved);
    LastTurn(env, limit, t, m, n, u, saved);
    FullTurn(env, limit, u, SavedAfter(env, limit, t, m, saved));
  }

  lemma {:induction false} Closer(at: nat, next: nat, whole: nat, size: nat, limit: nat, from: nat, m: nat, n: nat)
    requires n == m + 1 && at <= size && whole <= size && at >= Lesser(whole, from + m * limit)
    requires next == at + Lesser(limit, size - at)
    ensures next >= Lesser(whole, from + n * limit)
  {
    assert n * limit == m * limit + limit;
  }

  lemma {:induction false} FullTurn(env: Env, limit: nat, u: nat, saved: Option<Cursor>)
    requires Faithful(env, limit) && FullPages(env, limit) && Known(env.log(u), saved)
    requires !Turn(env, limit, u, saved).thrown
    ensures Position(env.log(u + 1), Turn(env, limit, u, saved).saved)
         == Position(env.log(u), saved) + Lesser(limit, |env.log(u)| - Position(env.log(u), saved))
  {
    TurnKeeps(env, limit, u, saved);
    assert Grows(env, u);
    PositionStays(env.log(u), env.log(u + 1), Turn(env, limit, u, saved).saved);
  }
}
