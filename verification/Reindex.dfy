/** The range reindexer of src/cli/reindex.ts. */
module Reindex {

  import opened Common

  datatype Event = Event(id: string, ledger: int, body: string)
  datatype Dto = Dto(contractId: string, ledger: int, eventId: string, eventType: string, payload: string)
  datatype Decoded = Decoded(dto: Dto) | Ignored | DecodeError

  /** The columns of the unique constraint on stored events. */
  datatype Key = Key(network: string, contractId: string, ledger: int, eventId: string)
  type Rows = map<Key, Dto>

  datatype Options = Options(contract: string, network: string, from: int, to: int, dryRun: bool)
  datatype Error = BadStart | BadEnd | BadNetwork | UnknownContract
  datatype Outcome = Ok | Err(error: Error)

  const MAX_SAFE_INTEGER := 9007199254740991

  function KeyOf(network: string, dto: Dto): Key {
    Key(network, dto.contractId, dto.ledger, dto.eventId)
  }

  // ---- Accounting for one event ----

  datatype Totals = Totals(fetched: nat, inserted: nat, alreadyPresent: nat, failed: nat, skipped: nat, perType: map<string, nat>)
  const ZERO := Totals(0, 0, 0, 0, 0, map[])

  /** What a run depends on: the decoder, and which writes the database refuses (by event number). */
  datatype Env = Env(network: string, dryRun: bool, decode: Event -> Decoded, refuses: nat -> bool)
  datatype State = State(totals: Totals, rows: Rows)

  function CountType(perType: map<string, nat>, eventType: string): map<string, nat> {
    perType[eventType := (if eventType in perType then perType[eventType] else 0) + 1]
  }

  function Process(env: Env, s: State, e: Event): State {
    var t := s.totals.(fetched := s.totals.fetched + 1);
    match env.decode(e)
    case Ignored => State(t.(skipped := t.skipped + 1), s.rows)
    case DecodeError => State(t.(failed := t.failed + 1), s.rows)
    case Decoded(dto) =>
      var t := t.(perType := CountType(t.perType, dto.eventType));
      var key := KeyOf(env.network, dto);
      if env.dryRun then State(t, s.rows)
      else if env.refuses(s.totals.fetched) then State(t.(failed := t.failed + 1), s.rows)
      else if key in s.rows then State(t.(alreadyPresent := t.alreadyPresent + 1), s.rows)
      else State(t.(inserted := t.inserted + 1), s.rows[key := dto])
  }

  function ProcessAll(env: Env, s: State, events: seq<Event>): State {
    if events == [] then s else
      Process(env, ProcessAll(env, s, events[..|events| - 1]), events[|events| - 1])
  }

  lemma {:induction false} ProcessAppend(env: Env, s: State, a: seq<Event>, b: seq<Event>)
    ensures ProcessAll(env, s, a + b) == ProcessAll(env, ProcessAll(env, s, a), b)
  {
    if b == [] {
      assert a + b == a;
    } else {
      var k := |b| - 1;
      ProcessAppend(env, s, a, b[..k]);
      assert (a + b)[..|a + b| - 1] == a + b[..k];
    }
  }

  class Store {
    var rows: Rows

    constructor (rows: Rows)
      ensures this.rows == rows
    {
      this.rows := rows;
    }

    /** Insert if absent; `refused` models a failing write, on which nothing is stored or reported. */
    method Upsert(network: string, dto: Dto, refused: bool) returns (inserted: Option<bool>)
      modifies this
      ensures refused ==> inserted == None && rows == old(rows)
      ensures !refused ==> inserted == Some(KeyOf(network, dto) !in old(rows))
      ensures !refused ==> rows == if KeyOf(network, dto) in old(rows) then old(rows) else old(rows)[KeyOf(network, dto) := dto]
    {
      if refused {
        return None;
      }
      if KeyOf(network, dto) in rows {
        return Some(false);
      }
      rows := rows[KeyOf(network, dto) := dto];
      return Some(true);
    }
  }

  class Summary {
    var fetched: nat
    var inserted: nat
    var alreadyPresent: nat
    var failed: nat
    var skipped: nat
    var perType: map<string, nat>

    constructor ()
      ensures Values() == ZERO
    {
      fetched, inserted, alreadyPresent, failed, skipped, perType := 0, 0, 0, 0, 0, map[];
    }

    function Values(): Totals
      reads this
    {
      Totals(fetched, inserted, alreadyPresent, failed, skipped, perType)
    }

    method ProcessReindexEvent(env: Env, e: Event, store: Store)
      modifies this, store
      ensures State(Values(), store.rows) == Process(env, old(State(Values(), store.rows)), e)
    {
      fetched := fetched + 1;
      match env.decode(e)
      case DecodeError =>
        failed := failed + 1;
      case Ignored =>
        skipped := skipped + 1;
      case Decoded(dto) =>
        perType := CountType(perType, dto.eventType);
        if !env.dryRun {
          var stored := store.Upsert(env.network, dto, env.refuses(fetched - 1));
          match stored
          case None =>
            failed := failed + 1;
          case Some(true) =>
            inserted := inserted + 1;
          case Some(false) =>
            alreadyPresent := alreadyPresent + 1;
        }
    }
  }

  // ---- The event log behind the RPC ----

  /** Scan positions: an event, or a stretch of ledgers without one. */
  type Log = seq<Option<Event>>

  datatype Request = FirstPage(startLedger: int, endLedger: int) | NextPage(cursor: string)
  datatype Page = Page(events: seq<Event>, cursor: string)

  ghost function Events(log: Log): seq<Event> {
    if log == [] then [] else
      var k := |log| - 1;
      Events(log[..k]) + if log[k].Some? then [log[k].value] else []
  }

  ghost function InRange(events: seq<Event>, from: int, to: int): seq<Event> {
    if events == [] then [] else
      var e := events[|events| - 1];
      InRange(events[..|events| - 1], from, to) + if from <= e.ledger <= to then [e] else []
  }

  ghost predicate LedgerOrdered(log: Log) {
    forall i, j :: 0 <= i <= j < |log| && log[i].Some? && log[j].Some? ==> log[i].value.ledger <= log[j].value.ledger
  }

  /**
   * The service behind `fetch`. `cursor(p)` names scan position `p`, and can be missing only at the
   * tip; a page asked for after position `p` ends at `next(p)`; a first page starts at `seek` of
   * its start ledger, skipping only older events, and ends at `stop` without passing its end ledger.
   */
  datatype Service = Service(
    log: Log,
    cursor: nat -> string,
    next: nat -> nat,
    seek: int -> nat,
    stop: (int, int) -> nat)
  {
    ghost predicate Honest(fetch: Request -> Page) {
      && LedgerOrdered(log)
      && (forall p, q :: 0 <= p < q <= |log| ==> cursor(p) != cursor(q))
      && (forall p :: 0 <= p < |log| ==> cursor(p) != "" && p < next(p) <= |log|)
      && next(|log|) == |log|
      && (forall p :: 0 <= p <= |log| && cursor(p) != "" ==>
            fetch(NextPage(cursor(p))) == Page(Events(log[p..next(p)]), cursor(next(p))))
      && forall start, end :: StartsHonestly(fetch, start, end)
    }

    ghost predicate StartsHonestly(fetch: Request -> Page, start: int, end: int) {
      && seek(start) <= stop(start, end) <= |log|
      && (forall i :: 0 <= i < seek(start) && log[i].Some? ==> log[i].value.ledger < start)
      && (forall i :: seek(start) <= i < stop(start, end) && log[i].Some? ==> log[i].value.ledger < end)
      && fetch(FirstPage(start, end)) == Page(Events(log[seek(start)..stop(start, end)]), cursor(stop(start, end)))
    }
  }

  lemma {:induction false} EventsAppend(a: Log, b: Log)
    ensures Events(a + b) == Events(a) + Events(b)
  {
    if b == [] {
      assert a + b == a;
    } else {
      var k := |b| - 1;
      EventsAppend(a, b[..k]);
      assert (a + b)[..|a + b| - 1] == a + b[..k];
    }
  }

  lemma {:induction false} InRangeAppend(a: seq<Event>, b: seq<Event>, from: int, to: int)
    ensures InRange(a + b, from, to) == InRange(a, from, to) + InRange(b, from, to)
  {
    if b == [] {
      assert a + b == a;
    } else {
      var k := |b| - 1;
      InRangeAppend(a, b[..k], from, to);
      assert (a + b)[..|a + b| - 1] == a + b[..k];
    }
  }

  lemma InRangeNext(a: seq<Event>, e: Event, from: int, to: int)
    ensures InRange(a + [e], from, to) == InRange(a, from, to) + if from <= e.ledger <= to then [e] else []
  {
    assert (a + [e])[..|a|] == a;
  }

  lemma {:induction false} NoneInRange(log: Log, from: int, to: int)
    requires forall i :: 0 <= i < |log| && log[i].Some? ==> !(from <= log[i].value.ledger <= to)
    ensures InRange(Events(log), from, to) == []
  {
    if log != [] {
      var k := |log| - 1;
      NoneInRange(log[..k], from, to);
      if log[k].Some? {
        InRangeNext(Events(log[..k]), log[k].value, from, to);
      } else {
        assert Events(log) == Events(log[..k]);
      }
    }
  }

  lemma {:induction false} EventComesFromLog(log: Log, i: nat) returns (p: nat)
    requires i < |Events(log)|
    ensures p < |log| && log[p] == Some(Events(log)[i])
  {
    var k := |log| - 1;
    if i < |Events(log[..k])| {
      p := EventComesFromLog(log[..k], i);
    } else {
      p := k;
    }
  }

  // ---- The cursor loop ----

  /** The checks made before anything is fetched. */
  function Validate(options: Options, registered: string -> set<string>): Outcome {
    if !(0 <= options.from <= MAX_SAFE_INTEGER) then Err(BadStart)
    else if !(options.from <= options.to < MAX_SAFE_INTEGER) then Err(BadEnd)
    else if options.network != "testnet" && options.network != "mainnet" then Err(BadNetwork)
    else if options.contract !in registered(options.network) then Err(UnknownContract)
    else Ok
  }

  method ProcessPage(env: Env, events: seq<Event>, from: int, to: int, summary: Summary, store: Store) returns (pastEnd: bool)
    modifies summary, store
    ensures State(summary.Values(), store.rows) == ProcessAll(env, old(State(summary.Values(), store.rows)), InRange(events, from, to))
    ensures pastEnd <==> exists i :: 0 <= i < |events| && events[i].ledger > to
  {
    hide *;
    pastEnd := false;
    NothingInEmptyPage(env, State(summary.Values(), store.rows), events[..0], from, to);
    for i := 0 to |events|
      invariant State(summary.Values(), store.rows)
        == ProcessAll(env, old(State(summary.Values(), store.rows)), InRange(events[..i], from, to))
      invariant pastEnd <==> exists j :: 0 <= j < i && events[j].ledger > to
    {
      var event := events[i];
      assert events[..i + 1] == events[..i] + [event];
      InRangeNext(events[..i], event, from, to);
      ProcessNext(env, old(State(summary.Values(), store.rows)), InRange(events[..i], from, to), event);
      assert InRange(events[..i], from, to) + [] == InRange(events[..i], from, to);
      if event.ledger > to {
        pastEnd := true;
      } else if event.ledger >= from {
        summary.ProcessReindexEvent(env, event, store);
      }
    }
    assert events[..|events|] == events;
  }

  lemma ProcessNext(env: Env, s: State, a: seq<Event>, e: Event)
    ensures ProcessAll(env, s, a + [e]) == Process(env, ProcessAll(env, s, a), e)
  {
    assert (a + [e])[..|a|] == a;
  }

  lemma NothingInEmptyPage(env: Env, s: State, events: seq<Event>, from: int, to: int)
    requires events == []
    ensures ProcessAll(env, s, InRange(events, from, to)) == s
  {
  }

  predicate Within(e: Event, from: int, to: int) {
    from <= e.ledger && e.ledger <= to
  }

  lemma InRangeLast(events: seq<Event>, from: int, to: int)
    ensures events == [] ==> InRange(events, from, to) == []
    ensures events != [] ==>
      var e := events[|events| - 1];
      InRange(events, from, to) == InRange(events[..|events| - 1], from, to) + if Within(e, from, to) then [e] else []
  {
  }

  /** The range is inclusive at both ends, and keeps order and repetitions. */
  lemma {:induction false} InRangeInOrder(events: seq<Event>, from: int, to: int) returns (pos: seq<nat>)
    ensures Selects(events, pos, InRange(events, from, to))
    ensures forall i :: 0 <= i < |events| ==> (i in pos <==> Within(events[i], from, to))
  {
    InRangeLast(events, from, to);
    if events == [] {
      pos := [];
    } else {
      hide *;
      var init, last := events[..|events| - 1], events[|events| - 1];
      pos := InRangeInOrder(init, from, to);
      pos := SelectsNext(events, pos, InRange(init, from, to), Within(last, from, to));
    }
  }

  /** What a page from position `p` to `q` adds, and what its end says about the rest of the log. */
  lemma PageAdvances(log: Log, p: nat, q: nat, from: int, to: int)
    requires LedgerOrdered(log) && p <= q <= |log|
    ensures InRange(Events(log[..q]), from, to) == InRange(Events(log[..p]), from, to) + InRange(Events(log[p..q]), from, to)
    ensures (exists i :: 0 <= i < |Events(log[p..q])| && Events(log[p..q])[i].ledger > to) ==>
      InRange(Events(log), from, to) == InRange(Events(log[..q]), from, to)
  {
    hide Events, InRange;
    assert log[..q] == log[..p] + log[p..q];
    EventsAppend(log[..p], log[p..q]);
    InRangeAppend(Events(log[..p]), Events(log[p..q]), from, to);
    if i :| 0 <= i < |Events(log[p..q])| && Events(log[p..q])[i].ledger > to {
      var k := EventComesFromLog(log[p..q], i);
      assert log[p + k].Some? && log[p + k].value.ledger > to;
      assert log == log[..q] + log[q..];
      EventsAppend(log[..q], log[q..]);
      InRangeAppend(Events(log[..q]), Events(log[q..]), from, to);
      NoneInRange(log[q..], from, to);
    }
  }

  /** Nothing before the position a first page starts from is in range. */
  lemma NothingSkipped(log: Log, p: nat, from: int, to: int)
    requires p <= |log| && forall i :: 0 <= i < p && log[i].Some? ==> log[i].value.ledger < from
    ensures InRange(Events(log[..p]), from, to) == []
  {
    NoneInRange(log[..p], from, to);
  }

  /** `s` is the state after exactly the in-range events before scan position `p`, in order. */
  ghost predicate ProcessedUpTo(env: Env, start: State, log: Log, p: nat, from: int, to: int, s: State)
    requires p <= |log|
  {
    s == ProcessAll(env, start, InRange(Events(log[..p]), from, to))
  }

  /** Processing the page from `p` to `q`; once a page goes past the end, nothing in range is left. */
  lemma PageProcessed(env: Env, start: State, log: Log, p: nat, q: nat, from: int, to: int, s: State, pastEnd: bool)
    requires LedgerOrdered(log) && p <= q <= |log| && ProcessedUpTo(env, start, log, p, from, to, s)
    requires var events := Events(log[p..q]); pastEnd <==> exists i :: 0 <= i < |events| && events[i].ledger > to
    ensures
      var s' := ProcessAll(env, s, InRange(Events(log[p..q]), from, to));
      && ProcessedUpTo(env, start, log, q, from, to, s')
      && (pastEnd ==> ProcessedUpTo(env, start, log, |log|, from, to, s'))
  {
    hide ProcessAll, Events, InRange, LedgerOrdered;
    PageAdvances(log, p, q, from, to);
    ProcessAppend(env, start, InRange(Events(log[..p]), from, to), InRange(Events(log[p..q]), from, to));
    assert log[..|log|] == log;
  }

  /** The loop of `reindexRange`. */
  method FetchAll(env: Env, from: int, to: int, fetch: Request -> Page, ghost service: Service, summary: Summary, store: Store)
    requires service.Honest(fetch)
    modifies summary, store
    ensures ProcessedUpTo(env, old(State(summary.Values(), store.rows)), service.log, |service.log|, from, to,
              State(summary.Values(), store.rows))
  {
    hide *;
    ghost var log := service.log;
    ghost var start := State(summary.Values(), store.rows);
    var cursor := "";
    var cursors: set<string> := {};
    ghost var p: nat := service.seek(from);
    HonestStart(service, fetch, env, start, from, to);
    while true
      invariant p <= |log| && (cursor != "" ==> cursor == service.cursor(p) && cursor in cursors)
      invariant cursor == "" ==> cursors == {} && p == service.seek(from)
      invariant forall c :: c in cursors ==> exists i: nat :: i <= p && c == service.cursor(i)
      invariant ProcessedUpTo(env, start, log, p, from, to, State(summary.Values(), store.rows))
      decreases if cursor == "" then 1 else 0, |log| - p
    {
      var page := fetch(if cursor != "" then NextPage(cursor) else FirstPage(from, to + 1));
      ghost var q: nat := if cursor != "" then service.next(p) else service.stop(from, to + 1);
      HonestPage(service, fetch, p, cursor, from, to);
      ghost var before := State(summary.Values(), store.rows);
      var pastEnd := ProcessPage(env, page.events, from, to, summary, store);
      PageProcessed(env, start, log, p, q, from, to, before, pastEnd);
      if pastEnd || page.cursor == "" {
        break;
      }
      if page.cursor in cursors {
        RepeatedCursor(service, fetch, p, q, cursor, cursors);
        if page.events == [] {
          break; // the log has been read to its end
        }
        assert false; // An honest service never makes the cursor stand still on a page with events.
      }
      cursors := cursors + {page.cursor};
      cursor := page.cursor;
      p := q;
    }
  }

  /**
   * Against an honest service the run ends without an error and has processed, in order, exactly
   * the events of the whole log whose ledger is in the range, each once.
   */
  method ReindexRange(options: Options, registered: string -> set<string>, decode: Event -> Decoded, refuses: nat -> bool,
      fetch: Request -> Page, ghost service: Service, store: Store)
    returns (outcome: Outcome, summary: Summary)
    requires service.Honest(fetch)
    modifies store
    ensures fresh(summary) && outcome == Validate(options, registered)
    ensures outcome.Err? ==> summary.Values() == ZERO && store.rows == old(store.rows)
    ensures outcome.Ok? ==>
      State(summary.Values(), store.rows) == ProcessAll(
        Env(options.network, options.dryRun, decode, refuses),
        State(ZERO, old(store.rows)),
        InRange(Events(service.log), options.from, options.to))
  {
    hide ProcessAll, Process, Events, InRange;
    summary := new Summary();
    outcome := Validate(options, registered);
    if outcome.Ok? {
      var env := Env(options.network, options.dryRun, decode, refuses);
      FetchAll(env, options.from, options.to, fetch, service, summary, store);
      assert service.log[..|service.log|] == service.log;
    }
  }

  lemma HonestStart(service: Service, fetch: Request -> Page, env: Env, start: State, from: int, to: int)
    requires service.Honest(fetch)
    ensures LedgerOrdered(service.log) && service.seek(from) <= |service.log|
    ensures ProcessedUpTo(env, start, service.log, service.seek(from), from, to, start)
  {
    assert service.StartsHonestly(fetch, from, to + 1);
    NothingSkipped(service.log, service.seek(from), from, to);
  }

  lemma HonestPage(service: Service, fetch: Request -> Page, p: nat, cursor: string, from: int, to: int)
    requires service.Honest(fetch) && p <= |service.log|
    requires if cursor == "" then p == service.seek(from) else cursor == service.cursor(p)
    ensures
      var page := fetch(if cursor != "" then NextPage(cursor) else FirstPage(from, to + 1));
      var q := if cursor != "" then service.next(p) else service.stop(from, to + 1);
      && p <= q <= |service.log|
      && (cursor != "" && p < |service.log| ==> p < q)
      && page == Page(Events(service.log[p..q]), service.cursor(q))
      && (page.cursor == "" ==> q == |service.log|)
  {
    assert service.StartsHonestly(fetch, from, to + 1);
  }

  /** A cursor seen before is the cursor of the tip, and its page is empty. */
  lemma RepeatedCursor(service: Service, fetch: Request -> Page, p: nat, q: nat, cursor: string, cursors: set<string>)
    requires service.Honest(fetch) && p <= q <= |service.log| && service.cursor(q) in cursors
    requires cursor == "" ==> cursors == {}
    requires cursor != "" && p < |service.log| ==> p < q
    requires forall c :: c in cursors ==> exists i: nat :: i <= p && c == service.cursor(i)
    ensures p == q == |service.log| && Events(service.log[p..q]) == []
  {
    var i: nat :| i <= p && service.cursor(q) == service.cursor(i);
    assert i == q;
  }

  // ---- Honest services exist ----

  function Unary(p: nat): (c: string)
    ensures |c| == p + 1
  {
    seq(p + 1, _ => 'x')
  }

  function ScanNext(log: Log, p: nat): nat {
    if p < |log| then p + 1 else |log|
  }

  ghost function ScanFetch(log: Log, r: Request): Page {
    match r
    case FirstPage(start, end) => Page([], Unary(FirstFrom(log, start, 0)))
    case NextPage(c) =>
      if 0 < |c| <= |log| + 1 then
        var p := |c| - 1;
        Page(Events(log[p..ScanNext(log, p)]), Unary(ScanNext(log, p)))
      else Page([], "")
  }

  ghost function ScanService(log: Log): Service {
    Service(log, (p: nat) => Unary(p), (p: nat) => ScanNext(log, p),
      (start: int) => FirstFrom(log, start, 0), (start: int, end: int) => FirstFrom(log, start, 0))
  }

  lemma ScanStarts(log: Log, start: int, end: int)
    ensures ScanService(log).StartsHonestly((r: Request) => ScanFetch(log, r), start, end)
  {
    hide Events, FirstFrom, Unary;
    var p := FirstFrom(log, start, 0);
    NoEvents(log[p..p]);
  }

  lemma ScanPages(log: Log, p: nat)
    requires p <= |log|
    ensures ScanFetch(log, NextPage(Unary(p))) == Page(Events(log[p..ScanNext(log, p)]), Unary(ScanNext(log, p)))
  {
    hide Events;
  }

  /** For every ordered log there is an honest service: one that scans a single position per page. */
  lemma HonestServiceExists(log: Log)
    requires LedgerOrdered(log)
    ensures exists service: Service, fetch: Request -> Page :: service.log == log && service.Honest(fetch)
  {
    hide Events, FirstFrom, LedgerOrdered, Unary, ScanFetch, Service.StartsHonestly;
    var service := ScanService(log);
    var fetch := (r: Request) => ScanFetch(log, r);
    forall start, end ensures service.StartsHonestly(fetch, start, end) {
      ScanStarts(log, start, end);
    }
    forall p: nat | p <= |log|
      ensures fetch(NextPage(service.cursor(p))) == Page(Events(log[p..service.next(p)]), service.cursor(service.next(p)))
    {
      ScanPages(log, p);
    }
    forall p: nat, q: nat | p < q <= |log| ensures service.cursor(p) != service.cursor(q) {
      assert |Unary(p)| != |Unary(q)|;
    }
    assert service.Honest(fetch);
  }

  lemma NoEvents(log: Log)
    requires log == []
    ensures Events(log) == []
  {
  }

  ghost function FirstFrom(log: Log, start: int, i: nat): (p: nat)
    requires i <= |log| && forall k :: 0 <= k < i && log[k].Some? ==> log[k].value.ledger < start
    ensures p <= |log| && forall k :: 0 <= k < p && log[k].Some? ==> log[k].value.ledger < start
    decreases |log| - i
  {
    if i == |log| || (log[i].Some? && log[i].value.ledger >= start) then i else FirstFrom(log, start, i + 1)
  }

  // ---- Conservation ----

  /** Sum of the per-type counters. */
  ghost function Total(m: map<string, nat>): nat {
    if m == map[] then 0 else
      var k :| k in m;
      m[k] + Total(m - {k})
  }

  lemma {:induction false} TotalWithout(m: map<string, nat>, k: string)
    requires k in m
    ensures Total(m) == m[k] + Total(m - {k})
  {
    var first :| first in m && Total(m) == m[first] + Total(m - {first});
    if first != k {
      TotalWithout(m - {first}, k);
      TotalWithout(m - {k}, first);
      assert m - {first} - {k} == m - {k} - {first};
    }
  }

  lemma CountTypeTotal(m: map<string, nat>, eventType: string)
    ensures Total(CountType(m, eventType)) == Total(m) + 1
  {
    var m' := CountType(m, eventType);
    TotalWithout(m', eventType);
    if eventType in m {
      TotalWithout(m, eventType);
      assert m - {eventType} == m' - {eventType};
    } else {
      assert m == m' - {eventType};
    }
  }

  /** Events the decoder turns into a row. */
  ghost function DecodedCount(env: Env, events: seq<Event>): nat {
    if events == [] then 0 else
      DecodedCount(env, events[..|events| - 1]) + if env.decode(events[|events| - 1]).Decoded? then 1 else 0
  }

  ghost predicate DecodesTo(env: Env, e: Event, eventType: string) {
    env.decode(e).Decoded? && env.decode(e).dto.eventType == eventType
  }

  /** Events the decoder turns into a row of one type. */
  ghost function DecodedOfType(env: Env, events: seq<Event>, eventType: string): nat {
    if events == [] then 0 else
      DecodedOfType(env, events[..|events| - 1], eventType)
      + if DecodesTo(env, events[|events| - 1], eventType) then 1 else 0
  }

  /** Each per-type counter is the number of decoded events of its type, whether or not their write succeeded. */
  lemma {:induction false} TypesCounted(env: Env, rows: Rows, events: seq<Event>, eventType: string)
    ensures
      var perType := ProcessAll(env, State(ZERO, rows), events).totals.perType;
      && (eventType in perType <==> DecodedOfType(env, events, eventType) > 0)
      && (eventType in perType ==> perType[eventType] == DecodedOfType(env, events, eventType))
  {
    if events != [] {
      TypesCounted(env, rows, events[..|events| - 1], eventType);
    }
  }

  /** The balance of a run that started from `rows`, after `n` events of which `d` were decoded. */
  ghost predicate Balanced(env: Env, rows: Rows, s: State, n: nat, d: nat) {
    var t := s.totals;
    && t.fetched == n
    && Total(t.perType) == d
    && (!env.dryRun ==> t.fetched == t.skipped + t.failed + t.inserted + t.alreadyPresent && |s.rows| == |rows| + t.inserted)
    && (env.dryRun ==> t.fetched == t.skipped + t.failed + Total(t.perType) && s.rows == rows && t.inserted == t.alreadyPresent == 0)
  }

  lemma ProcessKeepsBalance(env: Env, rows: Rows, s: State, e: Event, n: nat, d: nat)
    requires Balanced(env, rows, s, n, d)
    ensures Balanced(env, rows, Process(env, s, e), n + 1, d + if env.decode(e).Decoded? then 1 else 0)
  {
    hide Total;
    match env.decode(e)
    case Ignored =>
    case DecodeError =>
    case Decoded(dto) => CountTypeTotal(s.totals.perType, dto.eventType);
  }

  /**
   * Every fetched event ends in exactly one counter. A real run writes one row per insertion; a
   * dry run writes none; the per-type counters sum up to the decoded events.
   */
  lemma {:induction false} Conservation(env: Env, rows: Rows, events: seq<Event>)
    ensures Balanced(env, rows, ProcessAll(env, State(ZERO, rows), events), |events|, DecodedCount(env, events))
  {
    if events == [] {
      assert Total(map[]) == 0;
    } else {
      hide Balanced, Process;
      var k := |events| - 1;
      Conservation(env, rows, events[..k]);
      ProcessKeepsBalance(env, rows, ProcessAll(env, State(ZERO, rows), events[..k]), events[k], k, DecodedCount(env, events[..k]));
    }
  }

  // ---- Which events each counter counts ----

  /** Event `i` of a real run is written, or found present, under `key`. */
  ghost predicate WrittenAs(env: Env, events: seq<Event>, i: nat, key: Key)
    requires i < |events|
  {
    !env.dryRun && !env.refuses(i) && env.decode(events[i]).Decoded? &&
    var dto := env.decode(events[i]).dto;
    key.network == env.network && key.contractId == dto.contractId && key.ledger == dto.ledger && key.eventId == dto.eventId
  }

  /** Before event `i`, `key` was in the store or an earlier event had been written under it. */
  ghost predicate StoredBefore(env: Env, rows: Rows, events: seq<Event>, i: nat, key: Key)
    requires i <= |events|
  {
    key in rows || exists j :: 0 <= j < i && WrittenAs(env, events, j, key)
  }

  ghost function Ignorable(env: Env, events: seq<Event>): set<nat> {
    set i: nat | i < |events| && env.decode(events[i]).Ignored?
  }

  ghost function Failing(env: Env, events: seq<Event>): set<nat> {
    set i: nat | i < |events| &&
      (env.decode(events[i]).DecodeError? || (!env.dryRun && env.decode(events[i]).Decoded? && env.refuses(i)))
  }

  /** Event `i` is written under a key that was there before (`present`) or was not. */
  ghost predicate Writes(env: Env, rows: Rows, events: seq<Event>, i: nat, present: bool)
    requires i < |events|
  {
    exists key :: WrittenAs(env, events, i, key) && StoredBefore(env, rows, events, i, key) == present
  }

  ghost function Written(env: Env, rows: Rows, events: seq<Event>, present: bool): set<nat> {
    set i: nat | i < |events| && Writes(env, rows, events, i, present)
  }

  lemma ProcessWrites(env: Env, s: State, events: seq<Event>, n: nat, key: Key)
    requires n < |events| && s.totals.fetched == n
    ensures key in Process(env, s, events[n]).rows <==> key in s.rows || WrittenAs(env, events, n, key)
    ensures Process(env, s, events[n]).totals.fetched == n + 1
  {
  }

  lemma {:induction false} StoredKeys(env: Env, rows: Rows, events: seq<Event>)
    ensures forall key :: key in ProcessAll(env, State(ZERO, rows), events).rows <==> StoredBefore(env, rows, events, |events|, key)
    ensures ProcessAll(env, State(ZERO, rows), events).totals.fetched == |events|
  {
    hide Process, WrittenAs;
    if events != [] {
      var n := |events| - 1;
      var init, s := events[..n], ProcessAll(env, State(ZERO, rows), events[..n]);
      StoredKeys(env, rows, init);
      forall key ensures key in Process(env, s, events[n]).rows <==> StoredBefore(env, rows, events, n + 1, key) {
        ProcessWrites(env, s, events, n, key);
        WrittenInPrefix(env, events, n, key);
      }
      ProcessWrites(env, s, events, n, KeyOf("", Dto("", 0, "", "", "")));
    }
  }

  lemma WrittenInPrefix(env: Env, events: seq<Event>, n: nat, key: Key)
    requires n <= |events|
    ensures forall j :: 0 <= j < n ==> (WrittenAs(env, events[..n], j, key) <==> WrittenAs(env, events, j, key))
  {
  }

  lemma WritesInPrefix(env: Env, rows: Rows, events: seq<Event>, n: nat, i: nat, present: bool)
    requires i < n <= |events|
    ensures Writes(env, rows, events[..n], i, present) <==> Writes(env, rows, events, i, present)
  {
    hide WrittenAs;
    forall key ensures WrittenAs(env, events[..n], i, key) <==> WrittenAs(env, events, i, key)
      ensures StoredBefore(env, rows, events[..n], i, key) <==> StoredBefore(env, rows, events, i, key)
    {
      WrittenInPrefix(env, events, n, key);
    }
  }

  lemma OneMore(small: set<nat>, large: set<nat>, n: nat, yes: bool)
    requires n !in small && forall i :: i in large <==> i in small || (i == n && yes)
    ensures |large| == |small| + if yes then 1 else 0
  {
    assert large == small + if yes then {n} else {};
  }

  /** The step of the counters at the last event. */
  lemma LastOutcome(env: Env, rows: Rows, events: seq<Event>)
    requires events != []
    ensures
      var n := |events| - 1;
      var s, e := ProcessAll(env, State(ZERO, rows), events[..n]), events[n];
      var t, t' := s.totals, Process(env, s, e).totals;
      && t'.skipped == t.skipped + (if env.decode(e).Ignored? then 1 else 0)
      && t'.failed == t.failed
           + (if env.decode(e).DecodeError? || (!env.dryRun && env.decode(e).Decoded? && env.refuses(n)) then 1 else 0)
      && t'.alreadyPresent == t.alreadyPresent + (if Writes(env, rows, events, n, true) then 1 else 0)
      && t'.inserted == t.inserted + (if Writes(env, rows, events, n, false) then 1 else 0)
  {
    hide ProcessAll, StoredBefore;
    var n := |events| - 1;
    var s, e := ProcessAll(env, State(ZERO, rows), events[..n]), events[n];
    StoredKeys(env, rows, events[..n]);
    forall key ensures StoredBefore(env, rows, events[..n], n, key) <==> StoredBefore(env, rows, events, n, key) {
      StoredInPrefix(env, rows, events, n, key);
    }
    if env.decode(e).Decoded? && !env.dryRun && !env.refuses(n) {
      var key := KeyOf(env.network, env.decode(e).dto);
      assert WrittenAs(env, events, n, key);
      assert forall k :: WrittenAs(env, events, n, k) ==> k == key;
    }
  }

  lemma StoredInPrefix(env: Env, rows: Rows, events: seq<Event>, n: nat, key: Key)
    requires n <= |events|
    ensures StoredBefore(env, rows, events[..n], n, key) <==> StoredBefore(env, rows, events, n, key)
  {
    hide WrittenAs;
    WrittenInPrefix(env, events, n, key);
  }

  /**
   * Each counter counts the events it is named for: skipped those the decoder ignores; failed those
   * it rejects and those whose write is refused; alreadyPresent and inserted those written under a
   * key that was, and was not, stored before.
   */
  lemma {:induction false} OutcomesCounted(env: Env, rows: Rows, events: seq<Event>)
    ensures
      var t := ProcessAll(env, State(ZERO, rows), events).totals;
      && t.fetched == |events|
      && t.skipped == |Ignorable(env, events)|
      && t.failed == |Failing(env, events)|
      && t.alreadyPresent == |Written(env, rows, events, true)|
      && t.inserted == |Written(env, rows, events, false)|
  {
    StoredKeys(env, rows, events);
    if events != [] {
      var n := |events| - 1;
      var init := events[..n];
      OutcomesCounted(env, rows, init);
      LastOutcome(env, rows, events);
      hide *;
      SetsGrow(env, rows, events);
      ProcessLast(env, State(ZERO, rows), events);
    } else {
      NothingCounted(env, rows);
    }
  }

  lemma NothingCounted(env: Env, rows: Rows)
    ensures Ignorable(env, []) == Failing(env, []) == Written(env, rows, [], true) == Written(env, rows, [], false) == {}
  {
  }

  lemma ProcessLast(env: Env, s: State, events: seq<Event>)
    requires events != []
    ensures ProcessAll(env, s, events) == Process(env, ProcessAll(env, s, events[..|events| - 1]), events[|events| - 1])
  {
  }

  lemma SetsGrow(env: Env, rows: Rows, events: seq<Event>)
    requires events != []
    ensures
      var n := |events| - 1;
      var init, e := events[..n], events[n];
      && |Ignorable(env, events)| == |Ignorable(env, init)| + (if env.decode(e).Ignored? then 1 else 0)
      && |Failing(env, events)| == |Failing(env, init)|
           + (if env.decode(e).DecodeError? || (!env.dryRun && env.decode(e).Decoded? && env.refuses(n)) then 1 else 0)
      && |Written(env, rows, events, true)| == |Written(env, rows, init, true)| + (if Writes(env, rows, events, n, true) then 1 else 0)
      && |Written(env, rows, events, false)| == |Written(env, rows, init, false)| + (if Writes(env, rows, events, n, false) then 1 else 0)
  {
    hide Writes;
    var n := |events| - 1;
    var init, e := events[..n], events[n];
    OneMore(Ignorable(env, init), Ignorable(env, events), n, env.decode(e).Ignored?);
    OneMore(Failing(env, init), Failing(env, events), n,
      env.decode(e).DecodeError? || (!env.dryRun && env.decode(e).Decoded? && env.refuses(n)));
    hide Ignorable, Failing;
    forall i: nat, present | i < n ensures Writes(env, rows, init, i, present) <==> Writes(env, rows, events, i, present) {
      WritesInPrefix(env, rows, events, n, i, present);
    }
    OneMore(Written(env, rows, init, true), Written(env, rows, events, true), n, Writes(env, rows, events, n, true));
    OneMore(Written(env, rows, init, false), Written(env, rows, events, false), n, Writes(env, rows, events, n, false));
  }

  /** Exactly the options the checks are meant for are accepted; otherwise the first check that fails is reported. */
  lemma AcceptedOptions(options: Options, registered: string -> set<string>)
    ensures
      var start := 0 <= options.from <= 9007199254740991;
      var end := options.from <= options.to < 9007199254740991;
      var network := options.network == "testnet" || options.network == "mainnet";
      Validate(options, registered) ==
        if start && end && network && options.contract in registered(options.network) then Ok
        else Err(if !start then BadStart else if !end then BadEnd else if !network then BadNetwork else UnknownContract)
  {
  }

  // ---- Idempotence and composition ----

  ghost predicate FailureFree(env: Env) {
    forall k :: !env.refuses(k)
  }

  ghost predicate Stores(env: Env, e: Event, key: Key) {
    env.decode(e).Decoded? && KeyOf(env.network, env.decode(e).dto) == key
  }

  /** A run keeps every row, and each key it adds is that of one of its events. */
  lemma {:induction false} RowsOnlyGrow(env: Env, s: State, events: seq<Event>)
    ensures
      var rows := ProcessAll(env, s, events).rows;
      && s.rows.Keys <= rows.Keys && (forall k :: k in s.rows ==> rows[k] == s.rows[k])
      && forall k :: k in rows && k !in s.rows ==> exists i :: 0 <= i < |events| && Stores(env, events[i], k)
  {
    if events != [] {
      var n := |events| - 1;
      RowsOnlyGrow(env, s, events[..n]);
      var rows := ProcessAll(env, s, events).rows;
      forall k | k in rows && k !in s.rows ensures exists i :: 0 <= i < |events| && Stores(env, events[i], k) {
        if k in ProcessAll(env, s, events[..n]).rows {
          var i :| 0 <= i < n && Stores(env, events[..n][i], k);
          assert Stores(env, events[i], k);
        } else {
          assert Stores(env, events[n], k);
        }
      }
    }
  }

  /** A failure-free real run leaves a row for every decodable event. */
  lemma {:induction false} EveryEventStored(env: Env, s: State, events: seq<Event>)
    requires FailureFree(env) && !env.dryRun
    ensures forall i :: 0 <= i < |events| && env.decode(events[i]).Decoded? ==>
      KeyOf(env.network, env.decode(events[i]).dto) in ProcessAll(env, s, events).rows
  {
    if events != [] {
      var n := |events| - 1;
      EveryEventStored(env, s, events[..n]);
      forall i | 0 <= i < n && env.decode(events[i]).Decoded?
        ensures KeyOf(env.network, env.decode(events[i]).dto) in ProcessAll(env, s, events[..n]).rows
      {
        assert events[..n][i] == events[i];
      }
    }
  }

  /** When all keys are present a run inserts nothing and changes no row. */
  lemma {:induction false} AllPresent(env: Env, s: State, events: seq<Event>)
    requires forall i :: 0 <= i < |events| && env.decode(events[i]).Decoded? ==>
      KeyOf(env.network, env.decode(events[i]).dto) in s.rows
    ensures
      var s' := ProcessAll(env, s, events);
      s'.rows == s.rows && s'.totals.inserted == s.totals.inserted
  {
    if events != [] {
      AllPresent(env, s, events[..|events| - 1]);
    }
  }

  /** Rerunning after a failure-free run inserts nothing, whatever fails the second time. */
  lemma RerunInsertsNothing(first: Env, second: Env, rows: Rows, events: seq<Event>)
    requires FailureFree(first) && !first.dryRun
    requires second.network == first.network && second.decode == first.decode
    ensures
      var rows1 := ProcessAll(first, State(ZERO, rows), events).rows;
      var again := ProcessAll(second, State(ZERO, rows1), events);
      again.rows == rows1 && again.totals.inserted == 0
  {
    EveryEventStored(first, State(ZERO, rows), events);
    AllPresent(second, State(ZERO, ProcessAll(first, State(ZERO, rows), events).rows), events);
  }

  /** A failure-free rerun repairs a failed run: afterwards the same keys are stored as if nothing had failed. */
  lemma RerunRepairs(failing: Env, clean: Env, rows: Rows, events: seq<Event>)
    requires FailureFree(clean) && !clean.dryRun
    requires clean.network == failing.network && clean.decode == failing.decode
    ensures
      var rows1 := ProcessAll(failing, State(ZERO, rows), events).rows;
      ProcessAll(clean, State(ZERO, rows1), events).rows.Keys == ProcessAll(clean, State(ZERO, rows), events).rows.Keys
  {
    var rows1 := ProcessAll(failing, State(ZERO, rows), events).rows;
    var repaired := ProcessAll(clean, State(ZERO, rows1), events).rows;
    var direct := ProcessAll(clean, State(ZERO, rows), events).rows;
    RowsOnlyGrow(failing, State(ZERO, rows), events);
    RowsOnlyGrow(clean, State(ZERO, rows1), events);
    RowsOnlyGrow(clean, State(ZERO, rows), events);
    EveryEventStored(clean, State(ZERO, rows), events);
    EveryEventStored(clean, State(ZERO, rows1), events);
    forall k | k in repaired ensures k in direct {
      if k !in rows {
        assert exists i :: 0 <= i < |events| && Stores(clean, events[i], k) by {
          if k in rows1 {
            var i :| 0 <= i < |events| && Stores(failing, events[i], k);
            assert Stores(clean, events[i], k);
          }
        }
      }
    }
    forall k | k in direct ensures k in repaired {
      if k !in rows {
        var i :| 0 <= i < |events| && Stores(clean, events[i], k);
      }
    }
  }

  /** In an ordered log the events of a range are those of its lower part followed by those of its upper part. */
  lemma {:induction false} RangeSplits(log: Log, a: int, b: int, c: int)
    requires LedgerOrdered(log) && a <= b <= c
    ensures InRange(Events(log), a, c) == InRange(Events(log), a, b) + InRange(Events(log), b + 1, c)
  {
    if log != [] {
      var k := |log| - 1;
      RangeSplits(log[..k], a, b, c);
      assert Events(log) == Events(log[..k]) + if log[k].Some? then [log[k].value] else [];
      hide Events, InRange;
      if log[k].Some? {
        var e := log[k].value;
        InRangeNext(Events(log[..k]), e, a, c);
        InRangeNext(Events(log[..k]), e, a, b);
        InRangeNext(Events(log[..k]), e, b + 1, c);
        if e.ledger <= b {
          NoneInRange(log[..k], b + 1, c);
        }
      } else {
        assert Events(log) == Events(log[..k]);
      }
    }
  }

  /** The rows after a failure-free run do not depend on the counters it starts from. */
  lemma {:induction false} RowsIgnoreTotals(env: Env, s: State, s': State, events: seq<Event>)
    requires FailureFree(env) && s.rows == s'.rows
    ensures ProcessAll(env, s, events).rows == ProcessAll(env, s', events).rows
  {
    if events != [] {
      RowsIgnoreTotals(env, s, s', events[..|events| - 1]);
    }
  }

  /** Reindexing [a, b] and then [b + 1, c] leaves the rows that reindexing [a, c] leaves. */
  lemma SplitRunsAgree(env: Env, log: Log, rows: Rows, a: int, b: int, c: int)
    requires LedgerOrdered(log) && a <= b <= c && FailureFree(env)
    ensures
      var rows1 := ProcessAll(env, State(ZERO, rows), InRange(Events(log), a, b)).rows;
      ProcessAll(env, State(ZERO, rows1), InRange(Events(log), b + 1, c)).rows
        == ProcessAll(env, State(ZERO, rows), InRange(Events(log), a, c)).rows
  {
    var low, high := InRange(Events(log), a, b), InRange(Events(log), b + 1, c);
    RangeSplits(log, a, b, c);
    ProcessAppend(env, State(ZERO, rows), low, high);
    var after := ProcessAll(env, State(ZERO, rows), low);
    RowsIgnoreTotals(env, after, State(ZERO, after.rows), high);
  }
}
