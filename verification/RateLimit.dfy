/** The fixed-window rate limiter: a map of counters with lazy expiry and a background sweep. */
module RateLimit {

  datatype Entry = Entry(count: nat, resetTime: nat)
  datatype Config = Config(windowMs: nat, maxRequests: nat)
  datatype Answer = Answer(allowed: bool, remaining: int, resetIn: nat)
  type Table = map<string, Entry>

  /** Whether the entry still governs requests at this time. */
  predicate IsLive(t: Table, id: string, now: nat) {
    id in t && now <= t[id].resetTime
  }

  function Check(t: Table, id: string, cfg: Config, now: nat): (Table, Answer) {
    if !IsLive(t, id, now) then
      (t[id := Entry(1, now + cfg.windowMs)], Answer(true, cfg.maxRequests - 1, cfg.windowMs))
    else
      var e := t[id];
      if e.count >= cfg.maxRequests then (t, Answer(false, 0, e.resetTime - now))
      else (t[id := e.(count := e.count + 1)], Answer(true, cfg.maxRequests - (e.count + 1), e.resetTime - now))
  }

  function Sweep(t: Table, now: nat): Table {
    map id | id in t && now <= t[id].resetTime :: t[id]
  }

  // ---- The limiter as the server holds it ----

  class Limiter {
    var table: Table

    constructor ()
      ensures table == map[]
    {
      table := map[];
    }

    method CheckRateLimit(id: string, cfg: Config, now: nat) returns (answer: Answer)
      modifies this
      ensures (table, answer) == Check(old(table), id, cfg, now)
    {
      if id !in table || now > table[id].resetTime {
        table := table[id := Entry(1, now + cfg.windowMs)];
        return Answer(true, cfg.maxRequests - 1, cfg.windowMs);
      }
      var existing := table[id];
      if existing.count >= cfg.maxRequests {
        return Answer(false, 0, existing.resetTime - now);
      }
      existing := existing.(count := existing.count + 1);
      table := table[id := existing];
      return Answer(true, cfg.maxRequests - existing.count, existing.resetTime - now);
    }

    method CleanUp(now: nat)
      modifies this
      ensures table == Sweep(old(table), now)
      ensures forall id <- table :: table[id].resetTime >= now
    {
      var keys := table.Keys;
      while keys != {}
        invariant keys <= old(table).Keys
        invariant forall id :: id in table <==> id in old(table) && (id in keys || now <= old(table)[id].resetTime)
        invariant forall id <- table :: table[id] == old(table)[id]
        decreases keys
      {
        var id :| id in keys;
        if now > table[id].resetTime {
          table := table - {id};
        }
        keys := keys - {id};
      }
    }
  }

  // ---- Runs ----

  datatype Op = Request(id: string, cfg: Config, at: nat) | Cleanup(at: nat)

  /** The clock never goes back, and is not before `now` at the start. */
  ghost predicate Timed(ops: seq<Op>, now: nat) {
    && (forall n :: 0 <= n < |ops| ==> now <= ops[n].at)
    && (forall m, n :: 0 <= m < n < |ops| ==> ops[m].at <= ops[n].at)
  }

  function Apply(t: Table, op: Op): Table {
    match op
    case Request(id, cfg, at) => Check(t, id, cfg, at).0
    case Cleanup(at) => Sweep(t, at)
  }

  /** The answers given to one identifier, or to everyone. */
  function Answers(t: Table, ops: seq<Op>, who: Audience): seq<Answer>
    decreases |ops|
  {
    if ops == [] then []
    else
      var rest := Answers(Apply(t, ops[0]), ops[1..], who);
      if ops[0].Request? && Hears(who, ops[0].id) then [Check(t, ops[0].id, ops[0].cfg, ops[0].at).1] + rest else rest
  }

  datatype Audience = Everyone | Just(id: string)

  predicate Hears(who: Audience, id: string) {
    who.Everyone? || who.id == id
  }

  /** Drop the sweeps and the requests of everybody else. */
  function Relevant(ops: seq<Op>, who: Audience): seq<Op> {
    if ops == [] then []
    else
      var rest := Relevant(ops[1..], who);
      if ops[0].Request? && Hears(who, ops[0].id) then [ops[0]] + rest else rest
  }

  /** From `now` on, the two tables govern each identifier of the audience alike. */
  ghost predicate Alike(t: Table, u: Table, who: Audience, now: nat) {
    forall id :: Hears(who, id) ==>
      (IsLive(t, id, now) <==> IsLive(u, id, now)) && (IsLive(t, id, now) ==> t[id] == u[id])
  }

  lemma AlikeLater(t: Table, u: Table, who: Audience, now: nat, later: nat)
    requires Alike(t, u, who, now) && now <= later
    ensures Alike(t, u, who, later)
  {
    forall id | Hears(who, id)
      ensures (IsLive(t, id, later) <==> IsLive(u, id, later)) && (IsLive(t, id, later) ==> t[id] == u[id])
    {
      assert IsLive(t, id, now) <==> IsLive(u, id, now);
    }
  }

  lemma AlikeAfter(t: Table, u: Table, who: Audience, op: Op)
    requires Alike(t, u, who, op.at)
    ensures op.Request? && Hears(who, op.id) ==>
              && Alike(Apply(t, op), Apply(u, op), who, op.at)
              && Check(t, op.id, op.cfg, op.at).1 == Check(u, op.id, op.cfg, op.at).1
    ensures !(op.Request? && Hears(who, op.id)) ==> Alike(Apply(t, op), u, who, op.at)
  {
    if op.Request? {
      assert Hears(who, op.id) ==> (IsLive(t, op.id, op.at) <==> IsLive(u, op.id, op.at));
    }
  }

  lemma {:induction false} AlikeAnswers(t: Table, u: Table, who: Audience, ops: seq<Op>, now: nat)
    requires Alike(t, u, who, now) && Timed(ops, now)
    ensures Answers(t, ops, who) == Answers(u, Relevant(ops, who), who)
    decreases |ops|
  {
    if ops != [] {
      var op, rest := ops[0], ops[1..];
      AlikeLater(t, u, who, now, op.at);
      AlikeAfter(t, u, who, op);
      hide Alike;
      hide Apply;
      hide Check;
      if op.Request? && Hears(who, op.id) {
        AlikeAnswers(Apply(t, op), Apply(u, op), who, rest, op.at);
        assert Relevant(ops, who)[1..] == Relevant(rest, who);
      } else {
        AlikeAnswers(Apply(t, op), u, who, rest, op.at);
      }
    }
  }

  /** After a sweep no entry is left whose window is over, and every other entry is as it was. */
  lemma SweepLeavesLive(t: Table, now: nat, id: string)
    ensures id in Sweep(t, now) <==> id in t && now <= t[id].resetTime
    ensures id in Sweep(t, now) ==> Sweep(t, now)[id] == t[id]
  {
  }

  /** The sweep is invisible: leaving every sweep out of any run changes no answer. */
  lemma SweepsAreInvisible(t: Table, ops: seq<Op>, now: nat)
    requires Timed(ops, now)
    ensures Answers(t, ops, Everyone) == Answers(t, Relevant(ops, Everyone), Everyone)
  {
    AlikeAnswers(t, t, Everyone, ops, now);
  }

  /** Identifiers do not interfere: one gets the answers it would get were it alone. */
  lemma IdentifiersAreIndependent(t: Table, ops: seq<Op>, now: nat, id: string)
    requires Timed(ops, now)
    ensures Answers(t, ops, Just(id)) == Answers(t, Relevant(ops, Just(id)), Just(id))
  {
    AlikeAnswers(t, t, Just(id), ops, now);
  }

  // ---- How many requests get through ----

  /** An admitted request, the window it fell in, and whether it opened that window. */
  datatype Admission = Admission(cfg: Config, at: nat, start: nat, end: nat, opens: bool)

  datatype History = History(table: Table, log: seq<Admission>)

  /** The run of one identifier, under whatever configurations, with the log of what was admitted. */
  function Observe(h: History, op: Op, id: string): History {
    if op.Request? && op.id == id && Check(h.table, id, op.cfg, op.at).1.allowed then
      var a :=
        if IsLive(h.table, id, op.at) && h.log != [] then Joining(h.log, op.cfg, op.at) else Opening(op.cfg, op.at);
      History(Apply(h.table, op), h.log + [a])
    else
      History(Apply(h.table, op), h.log)
  }

  function Opening(cfg: Config, at: nat): Admission {
    Admission(cfg, at, at, at + cfg.windowMs, true)
  }

  function Joining(log: seq<Admission>, cfg: Config, at: nat): Admission
    requires log != []
  {
    Admission(cfg, at, log[|log| - 1].start, log[|log| - 1].end, false)
  }

  function ObserveAll(ops: seq<Op>, id: string): History {
    if ops == [] then History(map[], []) else Observe(ObserveAll(ops[..|ops| - 1], id), ops[|ops| - 1], id)
  }

  /** What the limiter enforces: the first request of a window always passes. */
  function Cap(cfg: Config): nat {
    if cfg.maxRequests >= 1 then cfg.maxRequests else 1
  }

  /** The admissions of one window. */
  function CountOpened(log: seq<Admission>, start: nat): nat {
    if log == [] then 0
    else CountOpened(log[..|log| - 1], start) + if log[|log| - 1].start == start then 1 else 0
  }

  /** The admission of one window that opened it, and those under one configuration. */
  function CountUnder(log: seq<Admission>, cfg: Config, start: nat): nat {
    if log == [] then 0
    else CountUnder(log[..|log| - 1], cfg, start) + if CountsUnder(log[|log| - 1], cfg, start) then 1 else 0
  }

  predicate CountsUnder(a: Admission, cfg: Config, start: nat) {
    a.start == start && (a.opens || a.cfg == cfg)
  }

  /** The admissions under one configuration during an interval. */
  function CountWithin(log: seq<Admission>, cfg: Config, from: nat, to: nat): nat {
    if log == [] then 0
    else CountWithin(log[..|log| - 1], cfg, from, to) + if Within(log[|log| - 1], cfg, from, to) then 1 else 0
  }

  predicate Within(a: Admission, cfg: Config, from: nat, to: nat) {
    a.cfg == cfg && from <= a.at <= to
  }

  /** In the same window, or in a window that ends before the other starts. */
  predicate Precedes(a: Admission, b: Admission) {
    (a.start == b.start && a.end == b.end) || a.end < b.start
  }

  /** Each admission lies in its window, and different windows do not overlap. */
  ghost predicate Windowed(log: seq<Admission>) {
    && (forall n :: 0 <= n < |log| ==> log[n].start <= log[n].at <= log[n].end)
    && (forall m, n :: 0 <= m < n < |log| ==> Precedes(log[m], log[n]))
  }

  ghost predicate Capped(log: seq<Admission>) {
    forall cfg, start :: CountUnder(log, cfg, start) <= Cap(cfg)
  }

  ghost predicate Opens(a: Admission, start: nat, end: nat) {
    a.opens && a.at == a.start == start && a.end == start + a.cfg.windowMs == end
  }

  ghost predicate HasOpening(log: seq<Admission>, start: nat, end: nat) {
    exists a :: a in log && Opens(a, start, end)
  }

  /** Every window was opened by an admitted request. */
  ghost predicate Opened(log: seq<Admission>) {
    forall n :: 0 <= n < |log| ==> HasOpening(log, log[n].start, log[n].end)
  }

  ghost predicate LogOk(log: seq<Admission>) {
    Windowed(log) && Capped(log) && Opened(log)
  }

  /** The table entry is the tally of the newest window, if that window is not over. */
  ghost predicate EntryOk(h: History, id: string, now: nat) {
    && (h.log == [] ==> id !in h.table)
    && (h.log != [] ==>
          var last := h.log[|h.log| - 1];
          && last.at <= now
          && (id in h.table ==> h.table[id] == Entry(CountOpened(h.log, last.start), last.end))
          && (id !in h.table ==> last.end < now))
  }

  lemma LogAppend(log: seq<Admission>, a: Admission, start: nat)
    ensures CountOpened(log + [a], start) == CountOpened(log, start) + if a.start == start then 1 else 0
  {
    assert (log + [a])[..|log|] == log;
  }

  lemma UnderAppend(log: seq<Admission>, a: Admission, cfg: Config, start: nat)
    ensures CountUnder(log + [a], cfg, start) ==
            CountUnder(log, cfg, start) + if CountsUnder(a, cfg, start) then 1 else 0
  {
    assert (log + [a])[..|log|] == log;
  }

  lemma {:induction false} NoneOpened(log: seq<Admission>, start: nat)
    requires forall n :: 0 <= n < |log| ==> log[n].start != start
    ensures CountOpened(log, start) == 0
  {
    if log != [] {
      NoneOpened(log[..|log| - 1], start);
    }
  }

  lemma {:induction false} UnderIsOpened(log: seq<Admission>, cfg: Config, start: nat)
    ensures CountUnder(log, cfg, start) <= CountOpened(log, start)
  {
    if log != [] {
      UnderIsOpened(log[..|log| - 1], cfg, start);
    }
  }

  /** A request is admitted to an empty window, or below the cap of its own configuration. */
  lemma AppendCapped(log: seq<Admission>, a: Admission)
    requires Capped(log)
    requires CountOpened(log, a.start) < (if a.opens then 1 else Cap(a.cfg))
    ensures Capped(log + [a])
  {
    forall cfg, start
      ensures CountUnder(log + [a], cfg, start) <= Cap(cfg)
    {
      UnderAppend(log, a, cfg, start);
      UnderIsOpened(log, cfg, start);
    }
  }

  lemma StillHasOpening(log: seq<Admission>, a: Admission, start: nat, end: nat)
    requires HasOpening(log, start, end)
    ensures HasOpening(log + [a], start, end)
  {
    var b :| b in log && Opens(b, start, end);
    assert b in log + [a];
  }

  lemma AppendOpened(log: seq<Admission>, a: Admission)
    requires Opened(log) && (Opens(a, a.start, a.end) || HasOpening(log, a.start, a.end))
    ensures Opened(log + [a])
  {
    var more := log + [a];
    assert a in more;
    forall n | 0 <= n < |more|
      ensures HasOpening(more, more[n].start, more[n].end)
    {
      if HasOpening(log, more[n].start, more[n].end) {
        StillHasOpening(log, a, more[n].start, more[n].end);
      }
    }
  }

  lemma AppendWindowed(log: seq<Admission>, a: Admission)
    requires Windowed(log) && a.start <= a.at <= a.end
    requires log != [] ==> Precedes(log[|log| - 1], a)
    ensures Windowed(log + [a])
  {
    forall m | 0 <= m < |log|
      ensures Precedes(log[m], a)
    {
      if m < |log| - 1 {
        assert Precedes(log[m], log[|log| - 1]);
      }
    }
  }

  /** Opening a new window after the last one has run out. */
  lemma OpenKeepsLog(log: seq<Admission>, cfg: Config, at: nat)
    requires LogOk(log)
    requires log != [] ==> log[|log| - 1].end < at
    ensures LogOk(log + [Opening(cfg, at)]) && CountOpened(log + [Opening(cfg, at)], at) == 1
  {
    var a := Opening(cfg, at);
    forall n | 0 <= n < |log|
      ensures log[n].start != at
    {
      if n < |log| - 1 {
        assert Precedes(log[n], log[|log| - 1]);
      }
    }
    NoneOpened(log, at);
    LogAppend(log, a, at);
    AppendWindowed(log, a);
    hide Windowed;
    AppendCapped(log, a);
    AppendOpened(log, a);
  }

  /** Admitting one more request to the newest window. */
  lemma AdmitKeepsLog(log: seq<Admission>, cfg: Config, at: nat)
    requires LogOk(log) && log != []
    requires var last := log[|log| - 1];
             last.start <= at <= last.end && CountOpened(log, last.start) < cfg.maxRequests
    ensures LogOk(log + [Joining(log, cfg, at)])
  {
    var a := Joining(log, cfg, at);
    AppendWindowed(log, a);
    hide Windowed;
    AppendCapped(log, a);
    AppendOpened(log, a);
  }

  lemma JoiningEntry(h: History, cfg: Config, id: string, at: nat, now: nat)
    requires EntryOk(h, id, now) && now <= at
    requires IsLive(h.table, id, at) && h.table[id].count < cfg.maxRequests
    ensures h.log != []
    ensures Observe(h, Request(id, cfg, at), id).log == h.log + [Joining(h.log, cfg, at)]
    ensures EntryOk(Observe(h, Request(id, cfg, at), id), id, at)
  {
    hide CountOpened;
    var a := Joining(h.log, cfg, at);
    LogAppend(h.log, a, a.start);
  }

  lemma ObserveAdmission(h: History, cfg: Config, id: string, at: nat, now: nat)
    requires LogOk(h.log) && EntryOk(h, id, now) && now <= at
    requires IsLive(h.table, id, at) && h.table[id].count < cfg.maxRequests
    ensures var g := Observe(h, Request(id, cfg, at), id);
            LogOk(g.log) && EntryOk(g, id, at)
  {
    JoiningEntry(h, cfg, id, at, now);
    hide Observe;
    LastInWindow(h.log);
    hide LogOk;
    hide CountOpened;
    AdmitKeepsLog(h.log, cfg, at);
  }

  lemma ObserveOpening(h: History, cfg: Config, id: string, at: nat, now: nat)
    requires LogOk(h.log) && EntryOk(h, id, now) && now <= at && !IsLive(h.table, id, at)
    ensures var g := Observe(h, Request(id, cfg, at), id);
            LogOk(g.log) && EntryOk(g, id, at)
  {
    hide LogOk;
    hide CountOpened;
    OpenKeepsLog(h.log, cfg, at);
  }

  lemma ObserveNothing(h: History, op: Op, id: string, now: nat)
    requires LogOk(h.log) && EntryOk(h, id, now) && now <= op.at
    requires !(op.Request? && op.id == id && Check(h.table, id, op.cfg, op.at).1.allowed)
    ensures LogOk(Observe(h, op, id).log) && EntryOk(Observe(h, op, id), id, op.at)
  {
    hide LogOk;
    hide CountOpened;
  }

  lemma ObserveKeepsLog(h: History, op: Op, id: string, now: nat)
    requires LogOk(h.log) && EntryOk(h, id, now) && now <= op.at
    ensures LogOk(Observe(h, op, id).log) && EntryOk(Observe(h, op, id), id, op.at)
  {
    hide LogOk;
    hide EntryOk;
    hide Observe;
    if op.Request? && op.id == id && Check(h.table, id, op.cfg, op.at).1.allowed {
      if IsLive(h.table, id, op.at) {
        ObserveAdmission(h, op.cfg, id, op.at, now);
      } else {
        ObserveOpening(h, op.cfg, id, op.at, now);
      }
    } else {
      ObserveNothing(h, op, id, now);
    }
  }

  lemma LastInWindow(log: seq<Admission>)
    requires LogOk(log) && log != []
    ensures log[|log| - 1].start <= log[|log| - 1].at
  {
  }

  lemma {:induction false} RunKeepsLog(ops: seq<Op>, id: string)
    requires Timed(ops, 0)
    ensures LogOk(ObserveAll(ops, id).log)
    ensures EntryOk(ObserveAll(ops, id), id, if ops == [] then 0 else ops[|ops| - 1].at)
  {
    hide LogOk;
    hide EntryOk;
    hide Observe;
    if ops == [] {
      EmptyHistory(id);
    } else {
      var before := ops[..|ops| - 1];
      RunKeepsLog(before, id);
      ObserveKeepsLog(ObserveAll(before, id), ops[|ops| - 1], id, if before == [] then 0 else before[|before| - 1].at);
    }
  }

  lemma EmptyHistory(id: string)
    ensures LogOk([]) && EntryOk(History(map[], []), id, 0)
  {
  }

  /** Every request of `id` in the run uses a configuration whose window is at least this long. */
  ghost predicate WindowsAtLeast(ops: seq<Op>, id: string, shortest: nat) {
    forall n :: 0 <= n < |ops| && ops[n].Request? && ops[n].id == id ==> shortest <= ops[n].cfg.windowMs
  }

  ghost predicate LongWindows(log: seq<Admission>, shortest: nat) {
    forall n :: 0 <= n < |log| ==> log[n].start + shortest <= log[n].end
  }

  lemma {:induction false} RunKeepsWindowsLong(ops: seq<Op>, id: string, shortest: nat)
    requires WindowsAtLeast(ops, id, shortest)
    ensures LongWindows(ObserveAll(ops, id).log, shortest)
  {
    if ops != [] {
      RunKeepsWindowsLong(ops[..|ops| - 1], id, shortest);
    }
  }

  /** If the admissions in an interval come from windows a and b, and the opening of window a is none of them. */
  lemma {:induction false} TwoWindows(log: seq<Admission>, cfg: Config, from: nat, to: nat, a: nat, b: nat,
                                      other: Admission)
    requires a != b && other.start == a && other.opens && !Within(other, cfg, from, to)
    requires forall n :: 0 <= n < |log| && Within(log[n], cfg, from, to) ==> log[n].start == a || log[n].start == b
    ensures CountWithin(log, cfg, from, to) + (if other in log then 1 else 0) <=
            CountUnder(log, cfg, a) + CountUnder(log, cfg, b)
  {
    if log != [] {
      TwoWindows(log[..|log| - 1], cfg, from, to, a, b, other);
      assert log == log[..|log| - 1] + [log[|log| - 1]];
    }
  }

  lemma {:induction false} OneWindow(log: seq<Admission>, cfg: Config, from: nat, to: nat, a: nat)
    requires forall n :: 0 <= n < |log| && Within(log[n], cfg, from, to) ==> log[n].start == a
    ensures CountWithin(log, cfg, from, to) <= CountUnder(log, cfg, a)
  {
    if log != [] {
      OneWindow(log[..|log| - 1], cfg, from, to, a);
    }
  }

  lemma WindowsApart(log: seq<Admission>, m: nat, n: nat)
    requires Windowed(log) && m < |log| && n < |log|
    ensures Precedes(log[m], log[n]) || Precedes(log[n], log[m])
    ensures log[m].start <= log[m].at <= log[m].end
  {
    if m != n {
      assert m < n ==> Precedes(log[m], log[n]);
      assert n < m ==> Precedes(log[n], log[m]);
    }
  }

  /** An interval at most one longer than the shortest window meets at most two windows. */
  lemma AtMostTwoWindows(log: seq<Admission>, shortest: nat, from: nat, m: nat, n: nat, k: nat)
    requires Windowed(log) && LongWindows(log, shortest) && m < |log| && n < |log| && k < |log|
    requires from <= log[m].at <= from + shortest + 1 && from <= log[n].at <= from + shortest + 1
    requires from <= log[k].at <= from + shortest + 1
    requires log[m].start != log[n].start
    ensures log[k].start == log[m].start || log[k].start == log[n].start
  {
    WindowsApart(log, m, n);
    WindowsApart(log, n, k);
    WindowsApart(log, k, m);
  }

  /** If an interval no longer than the window of `cfg` meets two windows, the request that opened the earlier
      one came before the interval or under another configuration. */
  lemma EarlierOpening(log: seq<Admission>, cfg: Config, from: nat, to: nat, m: nat, n: nat, a: Admission)
    requires Windowed(log) && to <= from + cfg.windowMs
    requires m < |log| && n < |log| && log[m].start < log[n].start && log[n].at <= to
    requires Opens(a, log[m].start, log[m].end)
    ensures !Within(a, cfg, from, to)
  {
    WindowsApart(log, m, n);
    WindowsApart(log, n, m);
  }

  lemma TwoWindowsBound(log: seq<Admission>, cfg: Config, shortest: nat, from: nat, to: nat, m: nat, n: nat)
    requires LogOk(log) && LongWindows(log, shortest) && to <= from + shortest + 1 && to <= from + cfg.windowMs
    requires m < |log| && n < |log| && log[m].start < log[n].start
    requires Within(log[m], cfg, from, to) && Within(log[n], cfg, from, to)
    ensures CountWithin(log, cfg, from, to) <= 2 * Cap(cfg) - 1
  {
    hide CountWithin;
    hide CountUnder;
    forall k | 0 <= k < |log| && Within(log[k], cfg, from, to)
      ensures log[k].start == log[m].start || log[k].start == log[n].start
    {
      AtMostTwoWindows(log, shortest, from, m, n, k);
    }
    hide LongWindows;
    assert HasOpening(log, log[m].start, log[m].end);
    hide Opened;
    var a :| a in log && Opens(a, log[m].start, log[m].end);
    EarlierOpening(log, cfg, from, to, m, n, a);
    hide Windowed;
    TwoWindows(log, cfg, from, to, log[m].start, log[n].start, a);
  }

  lemma IntervalBound(log: seq<Admission>, cfg: Config, shortest: nat, from: nat, to: nat)
    requires LogOk(log) && LongWindows(log, shortest) && to <= from + shortest + 1 && to <= from + cfg.windowMs
    ensures CountWithin(log, cfg, from, to) <= 2 * Cap(cfg) - 1
  {
    hide Windowed;
    hide LongWindows;
    hide Opened;
    hide CountUnder;
    hide CountWithin;
    if m, n :| 0 <= m < |log| && 0 <= n < |log| && log[m].start < log[n].start
               && Within(log[m], cfg, from, to) && Within(log[n], cfg, from, to) {
      TwoWindowsBound(log, cfg, shortest, from, to, m, n);
    } else {
      var start := if m :| 0 <= m < |log| && Within(log[m], cfg, from, to) then log[m].start else 0;
      OneWindow(log, cfg, from, to, start);
      assert CountUnder(log, cfg, start) <= Cap(cfg);
    }
  }

  /** In every run, whatever configurations the identifier is checked under and however the table is swept: an
      interval no longer than the configuration's window, and at most a millisecond longer than the shortest
      window in use, admits at most 2 * cap - 1 requests under the configuration; and no single window admits
      more of them than the cap. */
  lemma AdmissionsAreBounded(ops: seq<Op>, id: string, cfg: Config, shortest: nat, from: nat, to: nat)
    requires Timed(ops, 0) && WindowsAtLeast(ops, id, shortest)
    requires to <= from + shortest + 1 && to <= from + cfg.windowMs
    ensures CountWithin(ObserveAll(ops, id).log, cfg, from, to) <= 2 * Cap(cfg) - 1
    ensures forall start :: CountUnder(ObserveAll(ops, id).log, cfg, start) <= Cap(cfg)
  {
    hide ObserveAll;
    RunKeepsLog(ops, id);
    RunKeepsWindowsLong(ops, id, shortest);
    IntervalBound(ObserveAll(ops, id).log, cfg, shortest, from, to);
  }

  // ---- A maximum of one ----

  lemma {:induction false} UnderAtLeast(log: seq<Admission>, cfg: Config, start: nat, a: Admission, b: Admission)
    requires a in log && CountsUnder(a, cfg, start)
    ensures CountUnder(log, cfg, start) >= 1
    ensures a != b && b in log && CountsUnder(b, cfg, start) ==> CountUnder(log, cfg, start) >= 2
  {
    var ini, last := log[..|log| - 1], log[|log| - 1];
    assert log == ini + [last];
    if a in ini {
      UnderAtLeast(ini, cfg, start, a, b);
    } else if b in ini && CountsUnder(b, cfg, start) {
      UnderAtLeast(ini, cfg, start, b, a);
    }
  }

  /** With a maximum of one, a request is admitted only when it opens a window of its own configuration. */
  lemma AloneInWindow(log: seq<Admission>, cfg: Config, m: nat)
    requires LogOk(log) && Cap(cfg) == 1 && m < |log| && log[m].cfg == cfg
    ensures log[m].at == log[m].start && log[m].end == log[m].start + cfg.windowMs
  {
    hide Windowed;
    assert HasOpening(log, log[m].start, log[m].end);
    hide Opened;
    var a :| a in log && Opens(a, log[m].start, log[m].end);
    UnderAtLeast(log, cfg, log[m].start, a, log[m]);
  }

  lemma OnlyOneWithin(log: seq<Admission>, cfg: Config, from: nat, m: nat, n: nat)
    requires LogOk(log) && Cap(cfg) == 1 && m < |log| && n < |log|
    requires Within(log[m], cfg, from, from + cfg.windowMs) && Within(log[n], cfg, from, from + cfg.windowMs)
    ensures log[m].start == log[n].start
  {
    WindowsApart(log, m, n);
    AloneInWindow(log, cfg, m);
    AloneInWindow(log, cfg, n);
    hide LogOk;
  }

  lemma AloneBound(log: seq<Admission>, cfg: Config, from: nat)
    requires LogOk(log) && Cap(cfg) == 1
    ensures CountWithin(log, cfg, from, from + cfg.windowMs) <= 1
  {
    hide Windowed;
    hide Opened;
    hide CountUnder;
    hide CountWithin;
    var to := from + cfg.windowMs;
    var start := if m :| 0 <= m < |log| && Within(log[m], cfg, from, to) then log[m].start else 0;
    forall n | 0 <= n < |log| && Within(log[n], cfg, from, to)
      ensures log[n].start == start
    {
      var m :| 0 <= m < |log| && Within(log[m], cfg, from, to) && log[m].start == start;
      OnlyOneWithin(log, cfg, from, m, n);
    }
    OneWindow(log, cfg, from, to, start);
    assert CountUnder(log, cfg, start) <= Cap(cfg);
  }

  /** The end of the window that governs a request at this time, given what was admitted before. */
  function WindowEnd(log: seq<Admission>, cfg: Config, at: nat): nat {
    if log != [] && at <= log[|log| - 1].end then log[|log| - 1].end else at + cfg.windowMs
  }

  /** How many requests that window has admitted before. */
  function Used(log: seq<Admission>, at: nat): nat {
    if log != [] && at <= log[|log| - 1].end then CountOpened(log, log[|log| - 1].start) else 0
  }

  /** What the three fields of an answer say about the admissions so far, in every run, swept or not. */
  lemma AnswerReflectsLog(ops: seq<Op>, id: string, cfg: Config, at: nat)
    requires Timed(ops + [Request(id, cfg, at)], 0)
    ensures
      var h := ObserveAll(ops, id);
      var answer := Check(h.table, id, cfg, at).1;
      && (answer.allowed <==> Used(h.log, at) < Cap(cfg))
      && at + answer.resetIn == WindowEnd(h.log, cfg, at)
      && answer.remaining == if answer.allowed then cfg.maxRequests - (Used(h.log, at) + 1) else 0
  {
    hide ObserveAll;
    hide Check;
    hide Used;
    hide LogOk;
    hide EntryOk;
    var all := ops + [Request(id, cfg, at)];
    assert forall n :: 0 <= n < |ops| ==> all[n] == ops[n];
    assert ops != [] ==> all[|ops| - 1].at <= all[|ops|].at;
    RunKeepsLog(ops, id);
    AnswerFromEntry(ObserveAll(ops, id), id, cfg, at, if ops == [] then 0 else ops[|ops| - 1].at);
  }

  lemma AnswerFromEntry(h: History, id: string, cfg: Config, at: nat, now: nat)
    requires EntryOk(h, id, now) && now <= at
    ensures
      var answer := Check(h.table, id, cfg, at).1;
      && (answer.allowed <==> Used(h.log, at) < Cap(cfg))
      && at + answer.resetIn == WindowEnd(h.log, cfg, at)
      && answer.remaining == if answer.allowed then cfg.maxRequests - (Used(h.log, at) + 1) else 0
  {
    if h.log != [] {
      assert CountOpened(h.log, h.log[|h.log| - 1].start) >= 1;
    }
    hide CountOpened;
  }

  // ---- The bound is reached, and does not hold for longer intervals ----

  lemma CountWithinAppend(log: seq<Admission>, a: Admission, cfg: Config, from: nat, to: nat)
    ensures CountWithin(log + [a], cfg, from, to) ==
            CountWithin(log, cfg, from, to) + if Within(a, cfg, from, to) then 1 else 0
  {
    assert (log + [a])[..|log|] == log;
  }

  lemma ObserveAllowed(h: History, id: string, cfg: Config, at: nat, seen: Config, from: nat, to: nat)
    requires Check(h.table, id, cfg, at).1.allowed
    ensures
      var g := Observe(h, Request(id, cfg, at), id);
      && g.table == Check(h.table, id, cfg, at).0
      && CountWithin(g.log, seen, from, to) ==
         CountWithin(h.log, seen, from, to) + if cfg == seen && from <= at <= to then 1 else 0
  {
    var g := Observe(h, Request(id, cfg, at), id);
    CountWithinAppend(h.log, g.log[|h.log|], seen, from, to);
  }

  lemma ObserveLast(ops: seq<Op>, op: Op, id: string)
    ensures ObserveAll(ops + [op], id) == Observe(ObserveAll(ops, id), op, id)
  {
    assert (ops + [op])[..|ops|] == ops;
  }

  /** One request opens a window, the rest of its quota comes at its last instant, the next quota right after. */
  function WorstCase(id: string, cfg: Config, k: nat): seq<Op> {
    seq(k, n => Request(id, cfg, if n == 0 then 0 else if n < cfg.maxRequests then cfg.windowMs else cfg.windowMs + 1))
  }

  /** Where the worst case stands after k requests. */
  ghost predicate WorstCaseAt(h: History, id: string, cfg: Config, k: nat) {
    && id in h.table
    && (k <= cfg.maxRequests ==> h.table[id] == Entry(k, cfg.windowMs))
    && (k > cfg.maxRequests ==> h.table[id] == Entry(k - cfg.maxRequests, 2 * cfg.windowMs + 1))
    && CountWithin(h.log, cfg, cfg.windowMs, 2 * cfg.windowMs) == k - 1
  }

  lemma WorstCaseStep(h: History, id: string, cfg: Config, k: nat)
    requires cfg.windowMs >= 1 && 1 <= k < 2 * cfg.maxRequests && WorstCaseAt(h, id, cfg, k)
    ensures var at := if k < cfg.maxRequests then cfg.windowMs else cfg.windowMs + 1;
            WorstCaseAt(Observe(h, Request(id, cfg, at), id), id, cfg, k + 1)
  {
    var at := if k < cfg.maxRequests then cfg.windowMs else cfg.windowMs + 1;
    hide CountWithin;
    ObserveAllowed(h, id, cfg, at, cfg, cfg.windowMs, 2 * cfg.windowMs);
    hide Observe;
  }

  lemma WorstCaseStart(id: string, cfg: Config)
    requires cfg.maxRequests >= 1 && cfg.windowMs >= 1
    ensures WorstCaseAt(Observe(History(map[], []), Request(id, cfg, 0), id), id, cfg, 1)
  {
    ObserveAllowed(History(map[], []), id, cfg, 0, cfg, cfg.windowMs, 2 * cfg.windowMs);
  }

  lemma {:induction false} WorstCaseAdmitsAll(id: string, cfg: Config, k: nat)
    requires cfg.maxRequests >= 1 && cfg.windowMs >= 1 && 1 <= k <= 2 * cfg.maxRequests
    ensures WorstCaseAt(ObserveAll(WorstCase(id, cfg, k), id), id, cfg, k)
    decreases k
  {
    hide WorstCaseAt;
    hide Observe;
    assert WorstCase(id, cfg, k)[..k - 1] == WorstCase(id, cfg, k - 1);
    if k == 1 {
      WorstCaseStart(id, cfg);
    } else {
      WorstCaseAdmitsAll(id, cfg, k - 1);
      WorstCaseStep(ObserveAll(WorstCase(id, cfg, k - 1), id), id, cfg, k - 1);
    }
  }

  /** The bound is reached for every configuration that admits anything at all. */
  lemma BoundIsReached(id: string, cfg: Config)
    requires cfg.maxRequests >= 1 && cfg.windowMs >= 1
    ensures var ops := WorstCase(id, cfg, 2 * cfg.maxRequests);
            && Timed(ops, 0) && WindowsAtLeast(ops, id, cfg.windowMs)
            && CountWithin(ObserveAll(ops, id).log, cfg, cfg.windowMs, cfg.windowMs + cfg.windowMs) == 2 * Cap(cfg) - 1
  {
    WorstCaseAdmitsAll(id, cfg, 2 * cfg.maxRequests);
  }

  /** When window number r opens, if each opens a millisecond after the one before has ended. */
  function StartOf(short: Config, r: nat): nat {
    if r == 0 then 0 else StartOf(short, r - 1) + short.windowMs + 1
  }

  /** What r windows admit under the long configuration, if each was opened under another. */
  function Quotas(long: Config, r: nat): nat
    requires long.maxRequests >= 1
  {
    if r == 0 then 0 else Quotas(long, r - 1) + long.maxRequests - 1
  }

  lemma {:induction false} Products(short: Config, long: Config, r: nat)
    requires long.maxRequests >= 1
    ensures StartOf(short, r) == r * (short.windowMs + 1) && Quotas(long, r) == r * (long.maxRequests - 1)
  {
    if r > 0 {
      Products(short, long, r - 1);
      assert r * (short.windowMs + 1) == (r - 1) * (short.windowMs + 1) + (short.windowMs + 1);
      assert r * (long.maxRequests - 1) == (r - 1) * (long.maxRequests - 1) + (long.maxRequests - 1);
    }
  }

  /** A request under the short configuration opens each window; the rest of the window's quota, as the long
      configuration counts it, comes under the long one at the window's last instant. The last window so far is
      number r, with j of them. */
  function Mixed(id: string, short: Config, long: Config, r: nat, j: nat): seq<Op>
    requires j < long.maxRequests
    decreases r, j
  {
    if j > 0 then Mixed(id, short, long, r, j - 1) + [MixedOp(id, short, long, r, j)]
    else if r == 0 then [] + [MixedOp(id, short, long, r, j)]
    else Mixed(id, short, long, r - 1, long.maxRequests - 1) + [MixedOp(id, short, long, r, j)]
  }

  function MixedOp(id: string, short: Config, long: Config, r: nat, j: nat): Op {
    if j > 0 then Request(id, long, StartOf(short, r) + short.windowMs) else Request(id, short, StartOf(short, r))
  }

  ghost predicate MixedAt(h: History, id: string, short: Config, long: Config, to: nat, r: nat, j: nat) {
    && long.maxRequests >= 1
    && id in h.table && h.table[id] == Entry(j + 1, StartOf(short, r) + short.windowMs)
    && CountWithin(h.log, long, short.windowMs, to) == Quotas(long, r) + j
  }

  lemma MixedStep(h: History, id: string, short: Config, long: Config, to: nat, r: nat, j: nat)
    requires short != long && StartOf(short, r) + short.windowMs <= to && j < long.maxRequests
    requires
      if j > 0 then MixedAt(h, id, short, long, to, r, j - 1)
      else if r == 0 then h == History(map[], [])
      else MixedAt(h, id, short, long, to, r - 1, long.maxRequests - 1)
    ensures MixedAt(Observe(h, MixedOp(id, short, long, r, j), id), id, short, long, to, r, j)
  {
    var op := MixedOp(id, short, long, r, j);
    ObserveAllowed(h, id, op.cfg, op.at, long, short.windowMs, to);
    hide Observe;
  }

  lemma {:induction false} MixedAdmitsAll(id: string, short: Config, long: Config, to: nat, r: nat, j: nat)
    requires short != long && StartOf(short, r) + short.windowMs <= to && j < long.maxRequests
    ensures MixedAt(ObserveAll(Mixed(id, short, long, r, j), id), id, short, long, to, r, j)
    decreases r, j
  {
    hide MixedAt;
    hide MixedOp;
    hide Observe;
    var op, before := MixedOp(id, short, long, r, j), [];
    if j > 0 {
      before := Mixed(id, short, long, r, j - 1);
      MixedAdmitsAll(id, short, long, to, r, j - 1);
    } else if r > 0 {
      before := Mixed(id, short, long, r - 1, long.maxRequests - 1);
      MixedAdmitsAll(id, short, long, to, r - 1, long.maxRequests - 1);
    }
    MixedStep(ObserveAll(before, id), id, short, long, to, r, j);
    assert Mixed(id, short, long, r, j) == before + [op];
    hide Mixed;
    hide ObserveAll;
    ObserveLast(before, op, id);
  }

  /** Every request of `id` is checked under one of two configurations. */
  ghost predicate OnlyUnder(ops: seq<Op>, id: string, a: Config, b: Config) {
    forall n :: 0 <= n < |ops| && ops[n].Request? && ops[n].id == id ==> ops[n].cfg == a || ops[n].cfg == b
  }

  ghost predicate Between(ops: seq<Op>, id: string, a: Config, b: Config, last: nat) {
    Timed(ops, 0) && OnlyUnder(ops, id, a, b) && forall n :: 0 <= n < |ops| ==> ops[n].at <= last
  }

  lemma BetweenAppend(ops: seq<Op>, op: Op, id: string, a: Config, b: Config, last: nat)
    requires Between(ops, id, a, b, last) && last <= op.at && op.Request? && (op.cfg == a || op.cfg == b)
    ensures Between(ops + [op], id, a, b, op.at)
  {
  }

  lemma {:induction false} MixedIsTimed(id: string, short: Config, long: Config, r: nat, j: nat)
    requires j < long.maxRequests
    ensures Between(Mixed(id, short, long, r, j), id, short, long, MixedOp(id, short, long, r, j).at)
    decreases r, j
  {
    hide Between;
    var op, before, last := MixedOp(id, short, long, r, j), [], 0;
    if j > 0 {
      MixedIsTimed(id, short, long, r, j - 1);
      before, last := Mixed(id, short, long, r, j - 1), MixedOp(id, short, long, r, j - 1).at;
    } else if r > 0 {
      var j' := long.maxRequests - 1;
      MixedIsTimed(id, short, long, r - 1, j');
      before, last := Mixed(id, short, long, r - 1, j'), MixedOp(id, short, long, r - 1, j').at;
    } else {
      NothingBetween(id, short, long);
    }
    assert Mixed(id, short, long, r, j) == before + [op];
    BetweenAppend(before, op, id, short, long, last);
  }

  lemma NothingBetween(id: string, a: Config, b: Config)
    ensures Between([], id, a, b, 0)
  {
  }

  /** The table is keyed by identifier alone, so requests under a configuration with a short window weaken the
      limit of one with a long window: for every r, some run admits (r + 1) * (maximum - 1) requests under the
      long one within r short windows. */
  lemma {:induction false} ShortWindowsWeakenLongOnes(id: string, short: Config, long: Config, r: nat)
    requires short != long && long.maxRequests >= 1
    ensures
      var ops := Mixed(id, short, long, r, long.maxRequests - 1);
      var from := short.windowMs;
      && Timed(ops, 0) && OnlyUnder(ops, id, short, long)
      && CountWithin(ObserveAll(ops, id).log, long, from, from + r * (short.windowMs + 1)) ==
         (r + 1) * (long.maxRequests - 1)
  {
    hide CountWithin;
    hide ObserveAll;
    hide Mixed;
    hide Timed;
    hide OnlyUnder;
    Products(short, long, r);
    MixedIsTimed(id, short, long, r, long.maxRequests - 1);
    MixedAdmitsAll(id, short, long, StartOf(short, r) + short.windowMs, r, long.maxRequests - 1);
    hide StartOf;
    hide Quotas;
    assert (r + 1) * (long.maxRequests - 1) == r * (long.maxRequests - 1) + (long.maxRequests - 1);
  }

  /** Two windows opened under the short configuration, then k requests under the long one. */
  function Ending(id: string, short: Config, long: Config, k: nat): seq<Op>
    requires long.maxRequests >= 1
  {
    if k == 0 then Mixed(id, short, long, 1, long.maxRequests - 1)
    else Ending(id, short, long, k - 1) + [Request(id, long, 2 * (short.windowMs + 1))]
  }

  ghost predicate EndingAt(h: History, id: string, short: Config, long: Config, k: nat) {
    && id in h.table
    && h.table[id] == (if k == 0 then Entry(long.maxRequests, 2 * short.windowMs + 1)
                       else Entry(k, 2 * (short.windowMs + 1) + long.windowMs))
    && CountWithin(h.log, long, short.windowMs, short.windowMs + long.windowMs) == 2 * (long.maxRequests - 1) + k
  }

  lemma EndingStep(h: History, id: string, short: Config, long: Config, k: nat)
    requires short.windowMs + 1 < long.windowMs && k < long.maxRequests && EndingAt(h, id, short, long, k)
    ensures EndingAt(Observe(h, Request(id, long, 2 * (short.windowMs + 1)), id), id, short, long, k + 1)
  {
    hide CountWithin;
    ObserveAllowed(h, id, long, 2 * (short.windowMs + 1), long, short.windowMs, short.windowMs + long.windowMs);
    hide Observe;
  }

  lemma EndingStart(id: string, short: Config, long: Config)
    requires short.windowMs + 1 < long.windowMs && long.maxRequests >= 1
    ensures
      var ops := Mixed(id, short, long, 1, long.maxRequests - 1);
      && EndingAt(ObserveAll(ops, id), id, short, long, 0)
      && Between(ops, id, short, long, MixedOp(id, short, long, 1, long.maxRequests - 1).at)
  {
    hide CountWithin;
    hide ObserveAll;
    hide Mixed;
    hide Between;
    assert StartOf(short, 0) == 0 && Quotas(long, 0) == 0;
    assert StartOf(short, 1) == short.windowMs + 1 && Quotas(long, 1) == long.maxRequests - 1;
    MixedAdmitsAll(id, short, long, short.windowMs + long.windowMs, 1, long.maxRequests - 1);
    MixedIsTimed(id, short, long, 1, long.maxRequests - 1);
  }

  lemma {:induction false} EndingAdmitsAll(id: string, short: Config, long: Config, k: nat)
    requires short.windowMs + 1 < long.windowMs && 1 <= k <= long.maxRequests
    ensures EndingAt(ObserveAll(Ending(id, short, long, k), id), id, short, long, k)
    ensures Between(Ending(id, short, long, k), id, short, long, 2 * (short.windowMs + 1))
  {
    hide Observe;
    hide ObserveAll;
    hide Between;
    hide EndingAt;
    var before, op := Ending(id, short, long, k - 1), Request(id, long, 2 * (short.windowMs + 1));
    if k == 1 {
      EndingStart(id, short, long);
      var last := MixedOp(id, short, long, 1, long.maxRequests - 1).at;
      assert StartOf(short, 0) == 0 && StartOf(short, 1) == short.windowMs + 1;
      BetweenAppend(before, op, id, short, long, last);
    } else {
      EndingAdmitsAll(id, short, long, k - 1);
      BetweenAppend(before, op, id, short, long, op.at);
    }
    ObserveLast(before, op, id);
    EndingStep(ObserveAll(before, id), id, short, long, k - 1);
  }

  ghost predicate WithinLimit(ops: seq<Op>, id: string, cfg: Config, from: nat) {
    CountWithin(ObserveAll(ops, id).log, cfg, from, from + cfg.windowMs) <= 2 * Cap(cfg) - 1
  }

  /** In every run that checks the identifier under these two configurations alone, the limit of `cfg` holds
      over each interval as long as its window. */
  ghost predicate KeepsLimit(id: string, other: Config, cfg: Config) {
    forall ops: seq<Op>, from: nat ::
      Timed(ops, 0) && OnlyUnder(ops, id, other, cfg) ==> WithinLimit(ops, id, cfg, from)
  }

  lemma LimitIsKept(ops: seq<Op>, id: string, other: Config, cfg: Config, from: nat)
    requires Timed(ops, 0) && OnlyUnder(ops, id, other, cfg)
    requires cfg.windowMs <= other.windowMs + 1 || cfg.maxRequests <= 1
    ensures WithinLimit(ops, id, cfg, from)
  {
    hide CountWithin;
    hide ObserveAll;
    if cfg.maxRequests <= 1 {
      RunKeepsLog(ops, id);
      AloneBound(ObserveAll(ops, id).log, cfg, from);
    } else {
      var shortest := if other.windowMs < cfg.windowMs then other.windowMs else cfg.windowMs;
      AdmissionsAreBounded(ops, id, cfg, shortest, from, from + cfg.windowMs);
    }
  }

  /** A second configuration keeps the limit of the first if and only if its window is at most a millisecond
      shorter, or the first admits one request per window. */
  lemma {:induction false} KeepsLimitIff(id: string, other: Config, cfg: Config)
    ensures KeepsLimit(id, other, cfg) <==> cfg.windowMs <= other.windowMs + 1 || cfg.maxRequests <= 1
  {
    if cfg.windowMs <= other.windowMs + 1 || cfg.maxRequests <= 1 {
      forall ops: seq<Op>, from: nat | Timed(ops, 0) && OnlyUnder(ops, id, other, cfg)
        ensures WithinLimit(ops, id, cfg, from)
      {
        LimitIsKept(ops, id, other, cfg, from);
      }
    } else {
      EndingAdmitsAll(id, other, cfg, cfg.maxRequests);
      var ops := Ending(id, other, cfg, cfg.maxRequests);
      hide CountWithin;
      hide ObserveAll;
      hide Ending;
      assert !WithinLimit(ops, id, cfg, other.windowMs);
    }
  }
}
