/** The two fixed-window rate limiters: `consumeRateLimit` of the public relay and `consume` of
    the live relay.  Both keep one window per client in a bounded map and, to make room for a new
    client, drop the client that entered the map first. */
module RateLimiter {
  import opened Outcomes
  import opened Texts
  import opened Sequences
  import opened OrderedMaps

  /** A clock reading.  JavaScript clocks return numbers, and a number need not be finite. */
  datatype Reading = Finite(ms: int) | NaN | PlusInfinity | MinusInfinity

  /** The comparison `a < b`. */
  predicate Less(a: Reading, b: Reading) {
    match (a, b)
    case (Finite(x), Finite(y)) => x < y
    case (MinusInfinity, Finite(_)) => true
    case (MinusInfinity, PlusInfinity) => true
    case (Finite(_), PlusInfinity) => true
    case _ => false
  }

  /** The comparison `now - start >= width`; the difference of equal infinities is not a number. */
  predicate Elapsed(now: Reading, start: Reading, width: int) {
    match (now, start)
    case (Finite(x), Finite(y)) => x - y >= width
    case (PlusInfinity, Finite(_)) => true
    case (PlusInfinity, MinusInfinity) => true
    case (Finite(_), MinusInfinity) => true
    case _ => false
  }

  datatype Window = Window(startedAt: Reading, count: nat)

  type Windows = OrderedMap<Text, Window>

  /** The last two fields tell the two limiters apart: the public relay tests the oldest key for
      truth before dropping it, so it never drops the empty key, and it refuses readings that are
      not finite; the live relay does neither. */
  datatype Rule = Rule(maxRequests: nat, windowMs: nat, maxTracked: nat, sparesEmptyKey: bool, finiteOnly: bool)

  /** Only rules with positive numbers are ever in force. */
  predicate Positive(rule: Rule) { rule.maxRequests > 0 && rule.windowMs > 0 && rule.maxTracked > 0 }

  datatype Attempt = Attempt(client: Text, now: Reading)

  /** The reading is looked at, not refused at once. */
  predicate Judged(rule: Rule, a: Attempt) { rule.finiteOnly ==> a.now.Finite? }

  predicate IsOpen(rule: Rule, w: Window, now: Reading) {
    !Less(now, w.startedAt) && !Elapsed(now, w.startedAt, rule.windowMs)
  }

  predicate Admits(rule: Rule, ws: Windows, a: Attempt) {
    Judged(rule, a) &&
    match ws.Get(a.client)
    case None => true
    case Some(w) => !IsOpen(rule, w, a.now) || w.count < rule.maxRequests
  }

  /** The client whose window is dropped to make room. */
  function Victim(rule: Rule, ws: Windows, a: Attempt): Option<Text> {
    if !Judged(rule, a) || a.client in ws.values || ws.Size() < rule.maxTracked || ws.order == [] then None
    else if rule.sparesEmptyKey && ws.order[0] == [] then None
    else Some(ws.order[0])
  }

  function WithRoom(rule: Rule, ws: Windows, a: Attempt): Windows {
    match Victim(rule, ws, a) case None => ws case Some(v) => ws.Delete(v)
  }

  /** The map after the attempt. */
  function After(rule: Rule, ws: Windows, a: Attempt): Windows {
    if !Admits(rule, ws, a) then ws
    else
      match ws.Get(a.client)
      case Some(w) => ws.Set(a.client, if IsOpen(rule, w, a.now) then w.(count := w.count + 1) else Window(a.now, 1))
      case None => WithRoom(rule, ws, a).Set(a.client, Window(a.now, 1))
  }

  class ClientWindows {
    var windows: Windows

    constructor ()
      ensures windows == Empty()
    {
      windows := Empty();
    }

    method ConsumeRateLimit(client: Text, now: Reading, maxRequests: nat, windowMs: nat, maxTracked: nat)
      returns (accepted: bool)
      requires windows.Valid() && Positive(Rule(maxRequests, windowMs, maxTracked, true, true))
      modifies this
      ensures var rule := Rule(maxRequests, windowMs, maxTracked, true, true);
        && accepted == Admits(rule, old(windows), Attempt(client, now))
        && windows == After(rule, old(windows), Attempt(client, now))
    {
      if !now.Finite? {
        return false;
      }
      var existing := windows.Get(client);
      if existing.None? || Less(now, existing.value.startedAt) || Elapsed(now, existing.value.startedAt, windowMs) {
        if existing.None? && windows.Size() >= maxTracked {
          var oldest := windows.order[0];
          if oldest != [] {
            windows := windows.Delete(oldest);
          }
        }
        windows := windows.Set(client, Window(now, 1));
        return true;
      }
      if existing.value.count >= maxRequests {
        return false;
      }
      windows := windows.Set(client, existing.value.(count := existing.value.count + 1));
      return true;
    }

    method Consume(key: Text, now: Reading, maxRequests: nat, windowMs: nat) returns (accepted: bool)
      requires windows.Valid() && maxRequests > 0 && windowMs > 0
      modifies this
      ensures var rule := Rule(maxRequests, windowMs, 2048, false, false);
        && accepted == Admits(rule, old(windows), Attempt(key, now))
        && windows == After(rule, old(windows), Attempt(key, now))
    {
      var current := windows.Get(key);
      if current.None? || Less(now, current.value.startedAt) || Elapsed(now, current.value.startedAt, windowMs) {
        if windows.Size() >= 2048 && current.None? {
          windows := windows.Delete(windows.order[0]);
        }
        windows := windows.Set(key, Window(now, 1));
        return true;
      }
      if current.value.count >= maxRequests {
        return false;
      }
      windows := windows.Set(key, current.value.(count := current.value.count + 1));
      return true;
    }
  }

  // ---- runs -----------------------------------------------------------------------------

  function Run(rule: Rule, run: seq<Attempt>): (ws: Windows)
    ensures ws.Valid()
  {
    if run == [] then Empty() else After(rule, Run(rule, run[..|run| - 1]), run[|run| - 1])
  }

  /** The finite readings at which the client was let through, in order. */
  function Passed(rule: Rule, run: seq<Attempt>, client: Text): seq<int> {
    if run == [] then []
    else
      var n := |run| - 1;
      var a := run[n];
      Passed(rule, run[..n], client)
        + (if a.client == client && a.now.Finite? && Admits(rule, Run(rule, run[..n]), a) then [a.now.ms] else [])
  }

  /** The client's clock readings are finite, or refused when they are not, and do not decrease. */
  ghost predicate Clocked(rule: Rule, run: seq<Attempt>, client: Text) {
    && (forall i :: 0 <= i < |run| && run[i].client == client ==> rule.finiteOnly || run[i].now.Finite?)
    && forall i, j :: 0 <= i < j < |run| && Timed(run[i], client) && Timed(run[j], client) ==>
         run[i].now.ms <= run[j].now.ms
  }

  predicate Timed(a: Attempt, client: Text) { a.client == client && a.now.Finite? }

  ghost predicate NeverEvicted(rule: Rule, run: seq<Attempt>, client: Text) {
    forall i :: 0 <= i < |run| ==> Victim(rule, Run(rule, run[..i]), run[i]) != Some(client)
  }

  /** How many of the readings lie in the half-open interval. */
  function CountIn(ts: seq<int>, from: int, to: int): nat {
    if ts == [] then 0
    else CountIn(ts[..|ts| - 1], from, to) + (if from <= ts[|ts| - 1] < to then 1 else 0)
  }

  lemma CountAppend(ts: seq<int>, x: int, from: int, to: int)
    ensures CountIn(ts + [x], from, to) == CountIn(ts, from, to) + (if from <= x < to then 1 else 0)
  {
    assert (ts + [x])[..|ts|] == ts;
  }

  /** Cutting an interval in two, and widening it. */
  lemma {:induction false} CountSplits(ts: seq<int>, from: int, cut: int, to: int)
    requires from <= cut <= to
    ensures CountIn(ts, from, to) == CountIn(ts, from, cut) + CountIn(ts, cut, to)
  {
    if ts != [] {
      CountSplits(ts[..|ts| - 1], from, cut, to);
    }
  }

  ghost predicate Below(ts: seq<int>, top: int) { forall i :: 0 <= i < |ts| ==> ts[i] < top }

  /** Of readings that all lie below `top`, only those below it count. */
  lemma {:induction false} CountBelow(ts: seq<int>, from: int, to: int, wideFrom: int, top: int)
    requires Below(ts, top) && wideFrom <= from
    ensures CountIn(ts, from, to) <= CountIn(ts, wideFrom, top)
  {
    if ts != [] {
      CountBelow(ts[..|ts| - 1], from, to, wideFrom, top);
    }
  }

  // ---- the bound ------------------------------------------------------------------------

  /** How many readings lie in the interval of the given width. */
  ghost function Span(ts: seq<int>, from: int, width: nat): nat { CountIn(ts, from, from + width) }

  /** What is known of one client's window and of the readings it was let through at. */
  ghost predicate Tally(rule: Rule, window: Option<Window>, ts: seq<int>) {
    var width := rule.windowMs;
    match window
    case None => ts == []
    case Some(w) =>
      && w.startedAt.Finite? && w.count <= rule.maxRequests
      && Below(ts, w.startedAt.ms + width)
      && Span(ts, w.startedAt.ms, width) == w.count
      && (forall from :: Span(ts, from, width) <= 2 * rule.maxRequests)
      && (forall from :: from > w.startedAt.ms - width ==> CountIn(ts, from, w.startedAt.ms) <= rule.maxRequests)
  }

  /** A reading beyond all the readings so far, when the last full window is over. */
  lemma BeforeOpening(rule: Rule, window: Option<Window>, ts: seq<int>, now: int, from: int, to: int)
    requires Tally(rule, window, ts) && from > now - rule.windowMs
    requires window.Some? ==> now >= window.value.startedAt.ms + rule.windowMs
    ensures CountIn(ts, from, to) <= rule.maxRequests
    ensures Below(ts, now)
  {
    if window.Some? {
      var w := window.value;
      CountBelow(ts, from, to, w.startedAt.ms, w.startedAt.ms + rule.windowMs);
    }
  }

  lemma OpeningKeepsTally(rule: Rule, window: Option<Window>, ts: seq<int>, now: int)
    requires Positive(rule) && Tally(rule, window, ts)
    requires window.Some? ==> now >= window.value.startedAt.ms + rule.windowMs
    ensures Tally(rule, Some(Window(Finite(now), 1)), ts + [now])
  {
    hide CountIn;
    var width := rule.windowMs;
    var us := ts + [now];
    BeforeOpening(rule, window, ts, now, now, now);
    forall from ensures Span(us, from, width) <= 2 * rule.maxRequests {
      CountAppend(ts, now, from, from + width);
      if from > now - width {
        BeforeOpening(rule, window, ts, now, from, from + width);
      } else {
        assert Span(ts, from, width) <= 2 * rule.maxRequests by {
          if window.None? { assert CountIn([], from, from + width) == 0 by { CountEmpty(from, from + width); } }
        }
      }
    }
    forall from | from > now - width ensures CountIn(us, from, now) <= rule.maxRequests {
      CountAppend(ts, now, from, now);
      BeforeOpening(rule, window, ts, now, from, now);
    }
    CountAppend(ts, now, now, now + width);
    CountBelow(ts, now, now + width, now, now);
    CountNowhere(ts, now);
  }

  lemma CountEmpty(from: int, to: int)
    ensures CountIn([], from, to) == 0
  {
  }

  lemma {:induction false} CountNowhere(ts: seq<int>, at: int)
    ensures CountIn(ts, at, at) == 0
  {
    if ts != [] {
      CountNowhere(ts[..|ts| - 1], at);
    }
  }

  /** An interval that reaches into an open window, after the readings so far are extended. */
  lemma IntoOpenWindow(rule: Rule, w: Window, ts: seq<int>, now: int, from: int)
    requires Tally(rule, Some(w), ts) && IsOpen(rule, w, Finite(now)) && from <= now < from + rule.windowMs
    ensures CountIn(ts, from, from + rule.windowMs) <= rule.maxRequests + w.count
  {
    hide CountIn;
    var end := w.startedAt.ms + rule.windowMs;
    if from <= w.startedAt.ms {
      CountSplits(ts, from, w.startedAt.ms, from + rule.windowMs);
      CountBelow(ts, w.startedAt.ms, from + rule.windowMs, w.startedAt.ms, end);
    } else {
      CountBelow(ts, from, from + rule.windowMs, w.startedAt.ms, end);
    }
  }

  lemma CountingKeepsTally(rule: Rule, w: Window, ts: seq<int>, now: int)
    requires Tally(rule, Some(w), ts) && IsOpen(rule, w, Finite(now)) && w.count < rule.maxRequests
    ensures Tally(rule, Some(w.(count := w.count + 1)), ts + [now])
  {
    hide CountIn;
    var width := rule.windowMs;
    var us := ts + [now];
    CountAppend(ts, now, w.startedAt.ms, w.startedAt.ms + width);
    forall from | from > w.startedAt.ms - width ensures CountIn(us, from, w.startedAt.ms) <= rule.maxRequests {
      CountAppend(ts, now, from, w.startedAt.ms);
    }
    forall from ensures Span(us, from, width) <= 2 * rule.maxRequests {
      CountAppend(ts, now, from, from + width);
      assert Span(ts, from, width) <= 2 * rule.maxRequests;
      if from <= now < from + width {
        IntoOpenWindow(rule, w, ts, now, from);
      }
    }
  }

  /** The window of the client is touched only by the client's own calls, unless it is dropped. */
  lemma OthersKeepWindow(rule: Rule, ws: Windows, a: Attempt, client: Text)
    requires ws.Valid() && a.client != client && Victim(rule, ws, a) != Some(client)
    ensures After(rule, ws, a).Get(client) == ws.Get(client)
  {
  }

  lemma OwnCallKeepsTally(rule: Rule, ws: Windows, a: Attempt, ts: seq<int>)
    requires Positive(rule) && ws.Valid() && Tally(rule, ws.Get(a.client), ts) && a.now.Finite?
    requires ws.Get(a.client).Some? ==> !Less(a.now, ws.Get(a.client).value.startedAt)
    ensures Tally(rule, After(rule, ws, a).Get(a.client), if Admits(rule, ws, a) then ts + [a.now.ms] else ts)
  {
    match ws.Get(a.client)
    case None =>
      hide Tally;
      OpeningKeepsTally(rule, None, ts, a.now.ms);
    case Some(w) =>
      assert w.startedAt.Finite?;
      hide Tally;
      if !IsOpen(rule, w, a.now) {
        OpeningKeepsTally(rule, Some(w), ts, a.now.ms);
      } else if w.count < rule.maxRequests {
        CountingKeepsTally(rule, w, ts, a.now.ms);
      }
  }

  /** A client's window starts at a reading of the client's past. */
  lemma {:induction false} StartIsReading(rule: Rule, run: seq<Attempt>, client: Text, now: int)
    requires forall i :: 0 <= i < |run| && run[i].client == client ==> rule.finiteOnly || run[i].now.Finite?
    requires forall i :: 0 <= i < |run| && Timed(run[i], client) ==> run[i].now.ms <= now
    ensures client in Run(rule, run).values ==> !Less(Finite(now), Run(rule, run).values[client].startedAt)
  {
    hide After, Less;
    if run != [] {
      var n := |run| - 1;
      StartIsReading(rule, run[..n], client, now);
      assert Timed(run[n], client) ==> run[n].now.ms <= now;
      StartAfter(rule, Run(rule, run[..n]), run[n], client, now);
    }
  }

  lemma StartAfter(rule: Rule, ws: Windows, a: Attempt, client: Text, now: int)
    requires ws.Valid() && (client in ws.values ==> !Less(Finite(now), ws.values[client].startedAt))
    requires a.client == client ==> (rule.finiteOnly || a.now.Finite?) && (a.now.Finite? ==> a.now.ms <= now)
    ensures var t := After(rule, ws, a); client in t.values ==> !Less(Finite(now), t.values[client].startedAt)
  {
    hide IsOpen;
  }

  lemma StepKeepsTally(rule: Rule, ws: Windows, a: Attempt, client: Text, ts: seq<int>)
    requires Positive(rule) && ws.Valid() && Tally(rule, ws.Get(client), ts)
    requires Victim(rule, ws, a) != Some(client)
    requires a.client == client ==> rule.finiteOnly || a.now.Finite?
    requires Timed(a, client) && ws.Get(client).Some? ==> !Less(a.now, ws.Get(client).value.startedAt)
    ensures Tally(rule, After(rule, ws, a).Get(client),
                  ts + (if Timed(a, client) && Admits(rule, ws, a) then [a.now.ms] else []))
  {
    hide Tally, After, Victim, Admits, Less;
    assert ts + [] == ts;
    if a.client != client {
      OthersKeepWindow(rule, ws, a, client);
    } else if a.now.Finite? {
      OwnCallKeepsTally(rule, ws, a, ts);
    } else {
      RefusedChangesNothing(rule, ws, a);
    }
  }

  lemma {:induction false} RunsKeepTally(rule: Rule, run: seq<Attempt>, client: Text)
    requires Positive(rule) && Clocked(rule, run, client) && NeverEvicted(rule, run, client)
    ensures Tally(rule, Run(rule, run).Get(client), Passed(rule, run, client))
  {
    hide Tally, After, Admits, Victim, Less;
    if run == [] {
      NothingTallied(rule);
    } else {
      var n := |run| - 1;
      var front, a := run[..n], run[n];
      assert forall i :: 0 <= i < n ==> run[..i] == front[..i];
      RunsKeepTally(rule, front, client);
      if Timed(a, client) {
        StartIsReading(rule, front, client, a.now.ms);
      }
      StepKeepsTally(rule, Run(rule, front), a, client, Passed(rule, front, client));
    }
  }

  lemma NothingTallied(rule: Rule)
    ensures Tally(rule, None, [])
  {
  }

  lemma RefusedChangesNothing(rule: Rule, ws: Windows, a: Attempt)
    requires !Judged(rule, a)
    ensures !Admits(rule, ws, a) && After(rule, ws, a) == ws
  {
  }

  lemma {:induction false} PassedBefore(rule: Rule, run: seq<Attempt>, client: Text, now: int)
    requires forall i :: 0 <= i < |run| && Timed(run[i], client) ==> run[i].now.ms <= now
    ensures Below(Passed(rule, run, client), now + 1)
  {
    hide Admits, Run;
    if run != [] {
      var n := |run| - 1;
      PassedBefore(rule, run[..n], client, now);
      assert Timed(run[n], client) ==> run[n].now.ms <= now;
    }
  }

  lemma OpenWindowTells(rule: Rule, w: Window, ts: seq<int>, now: int)
    requires Tally(rule, Some(w), ts) && Below(ts, now + 1) && w.startedAt.ms <= now < w.startedAt.ms + rule.windowMs
    ensures w.count == CountIn(ts, w.startedAt.ms, now + 1) <= CountIn(ts, now - rule.windowMs + 1, now + 1)
  {
    hide CountIn;
    var start, width := w.startedAt.ms, rule.windowMs;
    CountBelow(ts, start, start + width, start, now + 1);
    CountBelow(ts, start, now + 1, start, start + width);
    CountBelow(ts, start, start + width, now - width + 1, now + 1);
  }

  /** The client's window is there, open, and as many calls as permitted were let through in it. */
  ghost predicate IsSpent(rule: Rule, window: Option<Window>, ts: seq<int>, now: int) {
    && window.Some? && window.value.startedAt.Finite?
    && now < window.value.startedAt.ms + rule.windowMs
    && CountIn(ts, window.value.startedAt.ms, now + 1) >= rule.maxRequests
  }

  /** When a call is let through: exactly unless the client's window is open and as many calls as
      permitted were let through in it.  So a client that was let through fewer times during the last
      window length is never refused. */
  lemma BelowTheLimitIsAdmitted(rule: Rule, run: seq<Attempt>, a: Attempt)
    requires Positive(rule) && a.now.Finite?
    requires Clocked(rule, run + [a], a.client) && NeverEvicted(rule, run, a.client)
    ensures var ts := Passed(rule, run, a.client);
      && (Admits(rule, Run(rule, run), a) <==> !IsSpent(rule, Run(rule, run).Get(a.client), ts, a.now.ms))
      && (CountIn(ts, a.now.ms - rule.windowMs + 1, a.now.ms + 1) < rule.maxRequests ==>
            Admits(rule, Run(rule, run), a))
  {
    ClockedBefore(rule, run, a);
    RunsKeepTally(rule, run, a.client);
    PassedBefore(rule, run, a.client, a.now.ms);
    StartIsReading(rule, run, a.client, a.now.ms);
    hide Run, Passed, Clocked, NeverEvicted, Timed, Tally, Below;
    SpentIsRefused(rule, Run(rule, run), a, Passed(rule, run, a.client));
  }

  lemma SpentIsRefused(rule: Rule, ws: Windows, a: Attempt, ts: seq<int>)
    requires a.now.Finite? && Tally(rule, ws.Get(a.client), ts) && Below(ts, a.now.ms + 1)
    requires a.client in ws.values ==> !Less(a.now, ws.values[a.client].startedAt)
    ensures Admits(rule, ws, a) <==> !IsSpent(rule, ws.Get(a.client), ts, a.now.ms)
    ensures CountIn(ts, a.now.ms - rule.windowMs + 1, a.now.ms + 1) < rule.maxRequests ==> Admits(rule, ws, a)
  {
    hide CountIn;
    match ws.Get(a.client)
    case None =>
    case Some(w) =>
      assert w.startedAt.Finite?;
      if a.now.ms < w.startedAt.ms + rule.windowMs {
        OpenWindowTells(rule, w, ts, a.now.ms);
      }
      hide Tally, Below;
  }

  lemma ClockedBefore(rule: Rule, run: seq<Attempt>, a: Attempt)
    requires Clocked(rule, run + [a], a.client) && a.now.Finite?
    ensures Clocked(rule, run, a.client)
    ensures forall i :: 0 <= i < |run| && Timed(run[i], a.client) ==> run[i].now.ms <= a.now.ms
  {
    var all := run + [a];
    assert forall i :: 0 <= i < |run| ==> all[i] == run[i];
    assert all[|run|] == a && Timed(all[|run|], a.client);
  }

  /** While the clock does not run backwards and the client is not dropped, no interval as long
      as the window holds more than twice the permitted calls, and the client's current window
      holds no more than the permitted calls, all of them counted. */
  lemma TwiceTheLimitAtMost(rule: Rule, run: seq<Attempt>, client: Text, from: int)
    requires Positive(rule) && Clocked(rule, run, client) && NeverEvicted(rule, run, client)
    ensures Span(Passed(rule, run, client), from, rule.windowMs) <= 2 * rule.maxRequests
    ensures var w := Run(rule, run).Get(client);
      w.Some? ==>
        && w.value.startedAt.Finite?
        && Span(Passed(rule, run, client), w.value.startedAt.ms, rule.windowMs) == w.value.count
        && w.value.count <= rule.maxRequests
  {
    hide Run, Passed, CountIn, Clocked, NeverEvicted;
    RunsKeepTally(rule, run, client);
    CountEmpty(from, from + rule.windowMs);
  }

  /** A window that was opened at a reading that is not a number never closes: its client is let
      through no more often than the limit says, for as long as the window is kept. */
  lemma NanWindowNeverCloses(rule: Rule, ws: Windows, a: Attempt, count: nat)
    requires ws.Valid() && !rule.finiteOnly && ws.Get(a.client) == Some(Window(NaN, count))
    ensures Admits(rule, ws, a) <==> count < rule.maxRequests
    ensures After(rule, ws, a).Get(a.client) == Some(Window(NaN, if Admits(rule, ws, a) then count + 1 else count))
  {
  }

  /** And no other window is open at every reading. */
  lemma OnlyNanWindowsStayOpen(rule: Rule, w: Window)
    ensures w.startedAt.NaN? <==> forall now :: IsOpen(rule, w, now)
  {
    match w.startedAt
    case Finite(ms) => assert !IsOpen(rule, w, Finite(ms + rule.windowMs));
    case NaN =>
    case _ => assert !IsOpen(rule, w, Finite(0));
  }

  // ---- the size of the map --------------------------------------------------------------

  /** From a map within its bound, a call makes it outgrow the bound exactly when the map is
      full, the client is new and the oldest key is the spared empty one. */
  lemma OutgrowsExactly(rule: Rule, ws: Windows, a: Attempt)
    requires Positive(rule) && ws.Valid() && ws.Size() <= rule.maxTracked
    ensures After(rule, ws, a).Size() > rule.maxTracked <==>
      && Judged(rule, a) && a.client !in ws.values && ws.Size() == rule.maxTracked
      && rule.sparesEmptyKey && ws.order[0] == []
  {
    if Victim(rule, ws, a).Some? {
      assert ws.order[0] in (set k | k in ws.order);
    }
  }

  lemma {:induction false} SizeIsBounded(rule: Rule, run: seq<Attempt>)
    requires Positive(rule)
    requires rule.sparesEmptyKey ==> forall a :: a in run ==> a.client != []
    ensures Run(rule, run).Size() <= rule.maxTracked
  {
    if run != [] {
      var n := |run| - 1;
      var ws := Run(rule, run[..n]);
      SizeIsBounded(rule, run[..n]);
      OutgrowsExactly(rule, ws, run[n]);
      if rule.sparesEmptyKey && ws.order != [] {
        KeysAreClients(rule, run[..n]);
        assert ws.order[0] in (set k | k in ws.order);
        assert ws.order[0] in Clients(run[..n]);
        assert forall a :: a in run[..n] ==> a in run;
      }
    }
  }

  function Clients(run: seq<Attempt>): set<Text> { set a | a in run :: a.client }

  lemma {:induction false} KeysAreClients(rule: Rule, run: seq<Attempt>)
    ensures Run(rule, run).values.Keys <= Clients(run)
  {
    if run != [] {
      var n := |run| - 1;
      KeysAreClients(rule, run[..n]);
      assert Clients(run[..n]) <= Clients(run) && run[n] in run;
      KeysAfter(rule, Run(rule, run[..n]), run[n]);
    }
  }

  lemma KeysAfter(rule: Rule, ws: Windows, a: Attempt)
    ensures After(rule, ws, a).values.Keys <= ws.values.Keys + {a.client}
  {
  }

  /** Once the empty key is the oldest, nothing is dropped any more. */
  lemma {:induction false} EmptyKeyPinsTheMap(rule: Rule, before: seq<Attempt>, after: seq<Attempt>)
    requires rule.sparesEmptyKey && Positive(rule)
    requires Run(rule, before).order != [] && Run(rule, before).order[0] == []
    requires forall a :: a in after ==> Judged(rule, a)
    ensures var ws := Run(rule, before + after);
      ws.order != [] && ws.order[0] == [] && ws.values.Keys == Run(rule, before).values.Keys + Clients(after)
  {
    hide Admits, Less, Elapsed;
    if after == [] {
      assert before + after == before;
    } else {
      var n := |after| - 1;
      assert (before + after)[..|before + after| - 1] == before + after[..n];
      assert after == after[..n] + [after[n]];
      assert Clients(after) == Clients(after[..n]) + {after[n].client};
      EmptyKeyPinsTheMap(rule, before, after[..n]);
      PinnedStep(rule, Run(rule, before + after[..n]), after[n]);
    }
  }

  lemma PinnedStep(rule: Rule, ws: Windows, a: Attempt)
    requires rule.sparesEmptyKey && ws.Valid() && ws.order != [] && ws.order[0] == [] && Judged(rule, a)
    ensures After(rule, ws, a).order != [] && After(rule, ws, a).order[0] == []
    ensures After(rule, ws, a).values.Keys == ws.values.Keys + {a.client}
  {
    hide IsOpen;
    assert Victim(rule, ws, a) == None;
  }

  /** One call of each of the clients, in turn, all at the same finite reading. */
  function CallsOf(clients: seq<Text>): (run: seq<Attempt>)
    ensures |run| == |clients|
  {
    seq(|clients|, i requires 0 <= i < |clients| => Attempt(clients[i], Finite(0)))
  }

  lemma ClientsOfCalls(clients: seq<Text>)
    ensures Clients(CallsOf(clients)) == set c | c in clients
  {
    var run := CallsOf(clients);
    forall c | c in clients ensures c in Clients(run) {
      var i :| 0 <= i < |clients| && clients[i] == c;
      assert run[i] in run;
    }
  }

  lemma FirstCall(rule: Rule, a: Attempt)
    requires Positive(rule) && Judged(rule, a)
    ensures Run(rule, [a]).order == [a.client]
  {
    assert [a][..0] == [];
    assert Admits(rule, Empty(), a);
  }

  /** So the public relay's map outgrows every bound after one call with an empty key: it then
      holds as many keys as there have been clients. */
  lemma EmptyKeyOutgrows(rule: Rule, clients: seq<Text>)
    requires rule.sparesEmptyKey && Positive(rule) && NoDuplicates(clients) && [] !in clients
    ensures Run(rule, [Attempt([], Finite(0))] + CallsOf(clients)).Size() == |clients| + 1
  {
    hide Run, Clients, CallsOf;
    var first := [Attempt([], Finite(0))];
    FirstCall(rule, first[0]);
    CallsAreFinite(clients);
    EmptyKeyPinsTheMap(rule, first, CallsOf(clients));
    ClientsOfCalls(clients);
    DistinctCount(clients);
    KeysAreOrder(Run(rule, first));
    var keys := set c | c in clients;
    assert [] !in keys;
    assert |{[]} + keys| == 1 + |keys|;
    SizeIsKeys(Run(rule, first + CallsOf(clients)));
  }

  lemma CallsAreFinite(clients: seq<Text>)
    ensures forall a :: a in CallsOf(clients) ==> a.now.Finite?
  {
  }

  lemma KeysAreOrder(ws: Windows)
    requires ws.Valid() && ws.order == [[]]
    ensures ws.values.Keys == {[]}
  {
    assert (set k | k in ws.order) == {[]};
  }

  lemma SizeIsKeys(ws: Windows)
    requires ws.Valid()
    ensures ws.Size() == |ws.values.Keys|
  {
    DistinctCount(ws.order);
  }

  lemma {:induction false} DistinctCount(s: seq<Text>)
    requires NoDuplicates(s)
    ensures |set k | k in s| == |s|
  {
    if s != [] {
      var n := |s| - 1;
      DistinctCount(s[..n]);
      assert (set k | k in s) == (set k | k in s[..n]) + {s[n]};
    }
  }

  // ---- eviction -------------------------------------------------------------------------

  /** With no more clients than the map has room for, nobody is ever dropped. */
  lemma FewClientsAreKept(rule: Rule, run: seq<Attempt>, client: Text)
    requires |Clients(run)| <= rule.maxTracked
    ensures NeverEvicted(rule, run, client)
  {
    forall i | 0 <= i < |run| ensures Victim(rule, Run(rule, run[..i]), run[i]) == None {
      var ws, a := Run(rule, run[..i]), run[i];
      if a.client !in ws.values {
        KeysAreClients(rule, run[..i]);
        assert Clients(run[..i]) <= Clients(run);
        assert a in run;
        SizeIsKeys(ws);
        SubsetSize(ws.values.Keys + {a.client}, Clients(run));
      }
    }
  }

  // ---- when the limit fails -------------------------------------------------------------

  predicate AllAdmitted(rule: Rule, run: seq<Attempt>) {
    run == [] || (AllAdmitted(rule, run[..|run| - 1]) && Admits(rule, Run(rule, run[..|run| - 1]), run[|run| - 1]))
  }

  /** The list with its last element brought to the front. */
  function Rotate(cs: seq<Text>): seq<Text>
    requires cs != []
  {
    [cs[|cs| - 1]] + cs[..|cs| - 1]
  }

  /** The clients of the list call one after the other, over and over; the last call is by the
      last of the list. */
  ghost predicate RoundRobin(rule: Rule, run: seq<Attempt>, cs: seq<Text>)
    requires cs != []
  {
    run == [] || var n := |run| - 1;
      run[n].client == cs[|cs| - 1] && Judged(rule, run[n]) && RoundRobin(rule, run[..n], Rotate(cs))
  }

  /** The clients whose windows are in the map after so many calls of a round robin. */
  function Recent(cs: seq<Text>, calls: nat): seq<Text>
    requires cs != []
  {
    cs[|cs| - (if calls < |cs| - 1 then calls else |cs| - 1)..]
  }

  lemma RotateKeeps(cs: seq<Text>)
    requires cs != []
    ensures NoDuplicates(cs) ==> NoDuplicates(Rotate(cs))
    ensures forall c :: c in Rotate(cs) <==> c in cs
  {
    assert cs == cs[..|cs| - 1] + [cs[|cs| - 1]];
  }

  lemma OldestGone(s: seq<Text>)
    requires s != [] && NoDuplicates(s)
    ensures Without(s, s[0]) == s[1..]
  {
    assert s[0] !in s[1..];
  }

  /** A client that is not in the map goes last, and the first is dropped if the map is full. */
  lemma NewcomerGoesLast(rule: Rule, ws: Windows, a: Attempt)
    requires ws.Valid() && Judged(rule, a) && a.client !in ws.order && [] !in ws.order && rule.maxTracked > 0
    ensures Admits(rule, ws, a)
    ensures After(rule, ws, a).order == (if |ws.order| >= rule.maxTracked then ws.order[1..] else ws.order) + [a.client]
  {
    hide IsOpen;
    assert a.client !in (set k | k in ws.order);
    if |ws.order| >= rule.maxTracked {
      OldestGone(ws.order);
      assert ws.order[0] in ws.order;
    }
  }

  /** With one client more than there is room for, the next in turn has always just been dropped. */
  lemma NewcomerIsAdmitted(rule: Rule, ws: Windows, a: Attempt, cs: seq<Text>, calls: nat)
    requires |cs| == rule.maxTracked + 1 && NoDuplicates(cs) && [] !in cs && rule.maxTracked > 0
    requires ws.Valid() && ws.order == Recent(Rotate(cs), calls)
    requires Judged(rule, a) && a.client == cs[|cs| - 1]
    ensures Admits(rule, ws, a) && After(rule, ws, a).order == Recent(cs, calls + 1)
  {
    hide Admits, After;
    var m := rule.maxTracked;
    var k := if calls < m then calls else m;
    assert ws.order == cs[m - k..m];
    assert forall c :: c in cs[m - k..m] ==> c in cs;
    assert a.client !in ws.order;
    NewcomerGoesLast(rule, ws, a);
    assert calls >= m ==> cs[..m][1..] == cs[1..m];
  }

  /** The premise of the bound matters: clients that take turns, one more than the map has room
      for, are never refused, however fast they call. */
  lemma {:induction false} TakingTurnsDefeatsTheLimit(rule: Rule, run: seq<Attempt>, cs: seq<Text>)
    requires rule.maxTracked > 0 && |cs| == rule.maxTracked + 1 && NoDuplicates(cs) && [] !in cs
    requires RoundRobin(rule, run, cs)
    ensures AllAdmitted(rule, run) && Run(rule, run).order == Recent(cs, |run|)
  {
    hide Admits, After;
    if run != [] {
      var n := |run| - 1;
      RotateKeeps(cs);
      TakingTurnsDefeatsTheLimit(rule, run[..n], Rotate(cs));
      NewcomerIsAdmitted(rule, Run(rule, run[..n]), run[n], cs, n);
    }
  }

  /** Such a run, of any length, with the clock standing still. */
  function Turns(cs: seq<Text>, calls: nat): (run: seq<Attempt>)
    requires cs != []
    ensures |run| == calls && forall a :: a in run ==> a.client in cs && a.now == Finite(0)
    decreases calls
  {
    if calls == 0 then []
    else
      RotateKeeps(cs);
      Turns(Rotate(cs), calls - 1) + [Attempt(cs[|cs| - 1], Finite(0))]
  }

  lemma {:induction false} TurnsAreRoundRobin(rule: Rule, cs: seq<Text>, calls: nat)
    requires cs != []
    ensures RoundRobin(rule, Turns(cs, calls), cs)
    decreases calls
  {
    if calls > 0 {
      TurnsAreRoundRobin(rule, Rotate(cs), calls - 1);
      assert Turns(cs, calls)[..calls - 1] == Turns(Rotate(cs), calls - 1);
    }
  }

  lemma PassedGrows(rule: Rule, run: seq<Attempt>, client: Text)
    requires run != [] && run[|run| - 1].now == Finite(0)
    ensures var n := |run| - 1; var before := Passed(rule, run[..n], client);
      Passed(rule, run, client)
        == if run[n].client == client && Admits(rule, Run(rule, run[..n]), run[n]) then before + [0] else before
  {
    hide Admits;
    assert forall ts: seq<int> :: ts + [] == ts;
  }

  ghost function Times(m: nat, x: nat): nat { m * x }

  /** Of the calls of a round robin each client makes its share; `ago` is how many calls back the
      client's turn was. */
  lemma {:induction false} EachHasItsShare(rule: Rule, cs: seq<Text>, calls: nat, ago: nat)
    requires ago < |cs|
    requires AllAdmitted(rule, Turns(cs, calls))
    ensures Times(|cs|, |Passed(rule, Turns(cs, calls), cs[|cs| - 1 - ago])|) + ago >= calls
    decreases calls
  {
    hide *;
    if calls > 0 {
      var client := cs[|cs| - 1 - ago];
      var run := Turns(cs, calls);
      LastTurn(cs, calls, ago);
      LastAdmitted(rule, run);
      PassedGrows(rule, run, client);
      var earlier := if ago == 0 then |cs| - 1 else ago - 1;
      EachHasItsShare(rule, Rotate(cs), calls - 1, earlier);
      ShareStep(|cs|, |Passed(rule, run[..calls - 1], client)|, |Passed(rule, run, client)|, ago, calls);
    }
  }

  lemma LastAdmitted(rule: Rule, run: seq<Attempt>)
    requires run != [] && AllAdmitted(rule, run)
    ensures AllAdmitted(rule, run[..|run| - 1]) && Admits(rule, Run(rule, run[..|run| - 1]), run[|run| - 1])
  {
    hide Admits, Run;
  }

  lemma LastTurn(cs: seq<Text>, calls: nat, ago: nat)
    requires ago < |cs| && calls > 0
    ensures Turns(cs, calls)[..calls - 1] == Turns(Rotate(cs), calls - 1)
    ensures Turns(cs, calls)[calls - 1] == Attempt(cs[|cs| - 1], Finite(0))
    ensures |Rotate(cs)| == |cs|
    ensures Rotate(cs)[|cs| - 1 - (if ago == 0 then |cs| - 1 else ago - 1)] == cs[|cs| - 1 - ago]
  {
  }

  lemma ShareStep(m: nat, before: nat, after: nat, ago: nat, calls: nat)
    requires ago < m && calls > 0 && after >= before + (if ago == 0 then 1 else 0)
    requires Times(m, before) + (if ago == 0 then m - 1 else ago - 1) >= calls - 1
    ensures Times(m, after) + ago >= calls
  {
    Distribute(m, before);
    Increasing(m, if ago == 0 then before + 1 else before, after);
  }

  lemma Distribute(m: nat, x: nat)
    ensures m * (x + 1) == m * x + m
  {
  }

  lemma {:induction false} PassedAtZero(rule: Rule, run: seq<Attempt>, client: Text, width: nat)
    requires width > 0 && forall a :: a in run ==> a.now == Finite(0)
    ensures CountIn(Passed(rule, run, client), 0, width) == |Passed(rule, run, client)|
  {
    if run == [] {
      CountEmpty(0, width);
    } else {
      hide Admits, Passed, Run, CountIn;
      var n := |run| - 1;
      assert forall a :: a in run[..n] ==> a in run;
      assert run[n] in run;
      PassedAtZero(rule, run[..n], client, width);
      PassedGrows(rule, run, client);
      CountAppend(Passed(rule, run[..n], client), 0, 0, width);
    }
  }

  lemma ChooseClients(clients: set<Text>, n: nat) returns (cs: seq<Text>)
    requires n <= |clients|
    ensures |cs| == n && NoDuplicates(cs) && forall c :: c in cs ==> c in clients
  {
    if n == 0 {
      cs := [];
    } else {
      var c :| c in clients;
      var rest := ChooseClients(clients - {c}, n - 1);
      cs := [c] + rest;
    }
  }

  /** Every client of the set keeps its window in every run of the set's clients. */
  ghost predicate NobodyIsEvicted(rule: Rule, clients: set<Text>) {
    forall run, client :: Clients(run) <= clients ==> NeverEvicted(rule, run, client)
  }

  /** In every run of the set's clients with an orderly clock each stays within twice the limit. */
  ghost predicate LimitIsKept(rule: Rule, clients: set<Text>) {
    forall run, client, from :: Clients(run) <= clients && Clocked(rule, run, client) ==>
      Span(Passed(rule, run, client), from, rule.windowMs) <= 2 * rule.maxRequests
  }

  /** More clients than there is room for: a run in which one of them exceeds twice the limit. */
  lemma ManyClientsExceed(rule: Rule, clients: set<Text>)
    requires Positive(rule) && [] !in clients && |clients| > rule.maxTracked
    ensures !LimitIsKept(rule, clients)
  {
    var cs := ChooseClients(clients, rule.maxTracked + 1);
    var calls := |cs| * (2 * rule.maxRequests + 1);
    var run, client := Turns(cs, calls), cs[|cs| - 1];
    TurnsAreRoundRobin(rule, cs, calls);
    TakingTurnsDefeatsTheLimit(rule, run, cs);
    EachHasItsShare(rule, cs, calls, 0);
    PassedAtZero(rule, run, client, rule.windowMs);
    MoreThan(|cs|, |Passed(rule, run, client)|, 2 * rule.maxRequests + 1);
    assert Clients(run) <= clients;
    assert Clocked(rule, run, client) by {
      assert forall i :: 0 <= i < |run| ==> run[i] in run;
    }
    assert Span(Passed(rule, run, client), 0, rule.windowMs) > 2 * rule.maxRequests;
  }

  lemma Increasing(m: nat, x: nat, y: nat)
    requires x <= y
    ensures m * x <= m * y
  {
  }

  lemma MoreThan(m: nat, x: nat, y: nat)
    requires m > 0 && Times(m, x) >= m * y
    ensures x >= y
  {
    if x < y { Distribute(m, x); Increasing(m, x + 1, y); }
  }

  /** The exact condition, for any set of non-empty client keys: nobody is ever evicted, and the
      limit holds in every run, if and only if the map has room for all of them. */
  lemma LimitHoldsExactly(rule: Rule, clients: set<Text>)
    requires Positive(rule) && [] !in clients
    ensures LimitIsKept(rule, clients) <==> |clients| <= rule.maxTracked
    ensures NobodyIsEvicted(rule, clients) <==> |clients| <= rule.maxTracked
  {
    hide Run, Passed, Victim, Clocked;
    if |clients| <= rule.maxTracked {
      forall run, client | Clients(run) <= clients ensures NeverEvicted(rule, run, client) {
        SubsetSize(Clients(run), clients);
        FewClientsAreKept(rule, run, client);
      }
      assert NobodyIsEvicted(rule, clients);
    } else {
      ManyClientsExceed(rule, clients);
    }
    if NobodyIsEvicted(rule, clients) {
      forall run, client, from | Clients(run) <= clients && Clocked(rule, run, client)
        ensures Span(Passed(rule, run, client), from, rule.windowMs) <= 2 * rule.maxRequests
      {
        assert NeverEvicted(rule, run, client);
        TwiceTheLimitAtMost(rule, run, client, from);
      }
    }
  }
}
