/** The sliding mutation budget of apps/actuator/local_policy.py; moments are reals. */
module RateBudget {
  import opened Common
  import Decimal

  /** The accepted claims in order of arrival: those the deque has dropped, and those it holds. */
  datatype Accepted = Accepted(dropped: seq<real>, events: seq<real>)

  /** How many events at the left of the deque have left the window. */
  function Expired(events: seq<real>, moment: real, window: real): (e: nat)
    ensures e <= |events|
    ensures forall k :: 0 <= k < e ==> moment - events[k] >= window
    ensures e < |events| ==> moment - events[e] < window
  {
    if events != [] && moment - events[0] >= window then 1 + Expired(events[1..], moment, window) else 0
  }

  predicate Accepts(a: Accepted, moment: real, limit: int, window: real) {
    |a.events| - Expired(a.events, moment, window) < limit
  }

  /** `claim`. */
  function Claimed(a: Accepted, moment: real, limit: int, window: real): Accepted {
    var e := Expired(a.events, moment, window);
    Accepted(a.dropped + a.events[..e], a.events[e..] + if Accepts(a, moment, limit, window) then [moment] else [])
  }

  /** Every claim of an actuator's life, in the order the lock admits them. */
  function After(moments: seq<real>, limit: int, window: real): Accepted {
    if moments == [] then Accepted([], [])
    else Claimed(After(moments[..|moments| - 1], limit, window), moments[|moments| - 1], limit, window)
  }

  function AllAccepted(moments: seq<real>, limit: int, window: real): seq<real> {
    After(moments, limit, window).dropped + After(moments, limit, window).events
  }

  function Count(s: seq<real>, counted: real -> bool): (n: nat)
    ensures n <= |s|
  {
    if s == [] then 0 else (if counted(s[0]) then 1 else 0) + Count(s[1..], counted)
  }

  lemma {:induction false} CountConcat(a: seq<real>, b: seq<real>, counted: real -> bool)
    ensures Count(a + b, counted) == Count(a, counted) + Count(b, counted)
  {
    if a == [] {
      assert a + b == b;
    } else {
      assert (a + b)[1..] == a[1..] + b;
      CountConcat(a[1..], b, counted);
    }
  }

  lemma CountOne(x: real, counted: real -> bool)
    ensures Count([x], counted) == if counted(x) then 1 else 0
    ensures Count([], counted) == 0
  {
  }

  lemma {:induction false} CountNone(s: seq<real>, counted: real -> bool)
    requires forall k :: 0 <= k < |s| ==> !counted(s[k])
    ensures Count(s, counted) == 0
  {
    if s != [] {
      CountNone(s[1..], counted);
    }
  }

  lemma {:induction false} CountEvery(s: seq<real>, counted: real -> bool)
    requires forall k :: 0 <= k < |s| ==> counted(s[k])
    ensures Count(s, counted) == |s|
  {
    if s != [] {
      CountEvery(s[1..], counted);
    }
  }

  /** A later moment is earlier by at most `d`. */
  predicate OutOfOrderBy(moments: seq<real>, d: real) {
    forall i, j :: 0 <= i < j < |moments| ==> moments[i] - moments[j] <= d
  }

  /** A claim has left the window of some later claim before the deque drops it. */
  predicate WasExpired(x: real, moments: seq<real>, window: real) {
    exists j :: 0 <= j < |moments| && moments[j] - x >= window
  }

  predicate AllExpired(dropped: seq<real>, moments: seq<real>, window: real) {
    forall k :: 0 <= k < |dropped| ==> WasExpired(dropped[k], moments, window)
  }

  lemma {:induction false} DroppedWasExpired(moments: seq<real>, limit: int, window: real)
    ensures AllExpired(After(moments, limit, window).dropped, moments, window)
  {
    hide Expired, Accepts;
    if moments != [] {
      var n := |moments| - 1;
      DroppedWasExpired(moments[..n], limit, window);
      var before, after := After(moments[..n], limit, window), After(moments, limit, window);
      forall k | 0 <= k < |after.dropped| ensures WasExpired(after.dropped[k], moments, window) {
        if k < |before.dropped| {
          assert WasExpired(before.dropped[k], moments[..n], window);
          var j :| 0 <= j < n && moments[..n][j] - before.dropped[k] >= window;
          assert moments[j] - after.dropped[k] >= window;
        } else {
          assert after.dropped[k] == before.events[k - |before.dropped|];
          assert moments[n] - after.dropped[k] >= window;
        }
      }
    }
  }

  lemma Regroup(a: seq<real>, b: seq<real>, e: nat, c: seq<real>)
    requires e <= |b|
    ensures (a + b[..e]) + (b[e..] + c) == (a + b) + c
  {
  }

  /** The claims accepted by one more claim. */
  lemma OneMore(moments: seq<real>, limit: int, window: real, counted: real -> bool)
    requires moments != []
    ensures var n := |moments| - 1;
      Count(AllAccepted(moments, limit, window), counted)
      == Count(AllAccepted(moments[..n], limit, window), counted)
         + if Accepts(After(moments[..n], limit, window), moments[n], limit, window) && counted(moments[n])
           then 1 else 0
  {
    hide Expired, Count, Accepts;
    var n := |moments| - 1;
    var before := After(moments[..n], limit, window);
    var e := Expired(before.events, moments[n], window);
    var claimed := if Accepts(before, moments[n], limit, window) then [moments[n]] else [];
    assert After(moments, limit, window) == Accepted(before.dropped + before.events[..e], before.events[e..] + claimed);
    Regroup(before.dropped, before.events, e, claimed);
    CountConcat(AllAccepted(moments[..n], limit, window), claimed, counted);
    CountOne(moments[n], counted);
  }

  /** When moments arrive out of order by at most d, no window of length W - d holds more
      accepted claims than the limit, over every history. */
  lemma {:induction false} WindowBound(moments: seq<real>, limit: int, window: real, d: real, t: real)
    requires d >= 0.0 && OutOfOrderBy(moments, d)
    ensures Count(AllAccepted(moments, limit, window), x => t <= x < t + window - d) <= if limit < 0 then 0 else limit
    decreases |moments|
  {
    hide After, Expired, Count;
    var within := x => t <= x < t + window - d;
    if moments == [] {
      assert AllAccepted(moments, limit, window) == [] by { NothingAccepted(limit, window); }
      CountNone([], within);
    } else {
      var n := |moments| - 1;
      OneMore(moments, limit, window, within);
      if Accepts(After(moments[..n], limit, window), moments[n], limit, window) && within(moments[n]) {
        NoneDroppedWithin(moments, limit, window, d, t);
        HeldAfterAccepting(moments, limit, window);
        var after := After(moments, limit, window);
        CountConcat(after.dropped, after.events, within);
      } else {
        WindowBound(moments[..n], limit, window, d, t);
      }
    }
  }

  lemma NothingAccepted(limit: int, window: real)
    ensures AllAccepted([], limit, window) == []
  {
  }

  lemma HeldAfterAccepting(moments: seq<real>, limit: int, window: real)
    requires moments != []
    requires Accepts(After(moments[..|moments| - 1], limit, window), moments[|moments| - 1], limit, window)
    ensures |After(moments, limit, window).events| <= limit
  {
  }

  /** What the deque dropped lies before a window that the last moment is in. */
  lemma NoneDroppedWithin(moments: seq<real>, limit: int, window: real, d: real, t: real)
    requires moments != [] && d >= 0.0 && OutOfOrderBy(moments, d)
    requires t <= moments[|moments| - 1] < t + window - d
    ensures Count(After(moments, limit, window).dropped, x => t <= x < t + window - d) == 0
  {
    hide After, Count;
    var dropped := After(moments, limit, window).dropped;
    DroppedWasExpired(moments, limit, window);
    forall k | 0 <= k < |dropped| ensures !(t <= dropped[k] < t + window - d) {
      assert WasExpired(dropped[k], moments, window);
      var j :| 0 <= j < |moments| && moments[j] - dropped[k] >= window;
      assert moments[j] - moments[|moments| - 1] <= d;
    }
    CountNone(dropped, x => t <= x < t + window - d);
  }

  function Zeros(n: nat): seq<real> { seq(n, _ => 0.0) }

  /** As many claims as the limit at once, one a window later, and one that arrives late. */
  function LateHistory(limit: nat, window: real, late: real): seq<real> {
    Zeros(limit) + [window] + [window - late]
  }

  /** No longer window is bounded: at any limit of two or more, any window and any disorder
      there is a history that exceeds the limit in every window longer than W - d. */
  lemma LongerWindowsExceed(limit: nat, window: real, d: real, length: real)
    requires limit >= 2 && window > 0.0 && d > 0.0 && length > 0.0 && length > window - d
    ensures var moments := LateHistory(limit, window, if d < window then d else window);
      OutOfOrderBy(moments, d) && Count(AllAccepted(moments, limit, window), x => 0.0 <= x < 0.0 + length) > limit
  {
    hide AllAccepted, Count, OutOfOrderBy, LateHistory;
    var late := if d < window then d else window;
    LateHistoryAccepted(limit, window, late);
    LateHistoryExceeds(limit, window, late, length);
    LateBy(limit, window, late, d);
  }

  lemma LateBy(limit: nat, window: real, late: real, d: real)
    requires 0.0 < late <= window && late <= d
    ensures OutOfOrderBy(LateHistory(limit, window, late), d)
  {
    var moments := LateHistory(limit, window, late);
    assert |moments| == limit + 2 && moments[limit] == window && moments[limit + 1] == window - late;
    assert forall k :: 0 <= k < limit ==> moments[k] == 0.0;
  }

  lemma LateHistoryExceeds(limit: nat, window: real, late: real, length: real)
    requires 0.0 < late <= window && length > 0.0 && length > window - late
    ensures Count(LateHistory(limit, window, late), x => 0.0 <= x < 0.0 + length) > limit
  {
    hide Count;
    var within := x => 0.0 <= x < 0.0 + length;
    CountConcat(Zeros(limit), [window], within);
    CountConcat(Zeros(limit) + [window], [window - late], within);
    CountEvery(Zeros(limit), within);
    CountOne(window - late, within);
  }

  lemma LateHistoryAccepted(limit: nat, window: real, late: real)
    requires limit >= 2 && 0.0 < late <= window
    ensures AllAccepted(LateHistory(limit, window, late), limit, window) == LateHistory(limit, window, late)
  {
    hide After, Expired;
    ZerosAccepted(limit, limit, window);
    ZerosExpire(limit, window);
    AfterOne(Zeros(limit), window, limit, window);
    assert After(Zeros(limit) + [window], limit, window) == Accepted(Zeros(limit), [window]);
    NotExpired(window, window - late, window);
    AfterOne(Zeros(limit) + [window], window - late, limit, window);
  }

  lemma NotExpired(event: real, moment: real, window: real)
    requires moment - event < window
    ensures Expired([event], moment, window) == 0
  {
  }

  lemma {:induction false} ZerosAccepted(n: nat, limit: nat, window: real)
    requires n <= limit && window > 0.0
    ensures After(Zeros(n), limit, window) == Accepted([], Zeros(n))
  {
    if n > 0 {
      ZerosAccepted(n - 1, limit, window);
      assert Zeros(n)[..n - 1] == Zeros(n - 1) && Zeros(n)[n - 1] == 0.0;
      assert Zeros(n - 1) + [0.0] == Zeros(n);
      assert Expired(Zeros(n - 1), 0.0, window) == 0;
    }
  }

  lemma {:induction false} ZerosExpire(n: nat, window: real)
    ensures Expired(Zeros(n), window, window) == n
  {
    if n > 0 {
      ZerosExpire(n - 1, window);
      assert Zeros(n)[1..] == Zeros(n - 1);
    }
  }

  /** Later entries are later by at least the window. */
  predicate Spaced(s: seq<real>, window: real) {
    forall i, j :: 0 <= i < j < |s| ==> s[j] - s[i] >= window
  }

  lemma {:induction false} LimitOneSpaces(moments: seq<real>, window: real)
    requires window >= 0.0
    ensures var a := After(moments, 1, window);
      Spaced(a.dropped + a.events, window) && |a.events| <= 1 && (a.events == [] ==> a.dropped == [])
  {
    if moments != [] {
      var n := |moments| - 1;
      LimitOneSpaces(moments[..n], window);
      SpacedOneMore(After(moments[..n], 1, window), moments[n], window);
    }
  }

  lemma SpacedOneMore(a: Accepted, moment: real, window: real)
    requires window >= 0.0 && Spaced(a.dropped + a.events, window)
    requires |a.events| <= 1 && (a.events == [] ==> a.dropped == [])
    ensures var b := Claimed(a, moment, 1, window);
      Spaced(b.dropped + b.events, window) && |b.events| <= 1 && (b.events == [] ==> b.dropped == [])
  {
    hide Expired, Spaced;
    var e, b := Expired(a.events, moment, window), Claimed(a, moment, 1, window);
    if Accepts(a, moment, 1, window) {
      Regroup(a.dropped, a.events, e, [moment]);
      assert e == |a.events|;
      assert a.events != [] ==> (a.dropped + a.events)[|a.dropped + a.events| - 1] == a.events[0];
      SpacedBy(a.dropped + a.events, moment, window);
    } else {
      Regroup(a.dropped, a.events, e, []);
      assert (a.dropped + a.events) + [] == a.dropped + a.events;
    }
  }

  lemma SpacedBy(s: seq<real>, moment: real, window: real)
    requires window >= 0.0 && Spaced(s, window) && (s != [] ==> moment - s[|s| - 1] >= window)
    ensures Spaced(s + [moment], window)
  {
    forall i | 0 <= i < |s| ensures moment - s[i] >= window {
      assert i < |s| - 1 ==> s[|s| - 1] - s[i] >= window;
    }
  }

  lemma {:induction false} CountSpaced(s: seq<real>, window: real, t: real)
    requires Spaced(s, window)
    ensures Count(s, x => t <= x < t + window) <= 1
  {
    if s != [] {
      var within := x => t <= x < t + window;
      if within(s[0]) {
        forall k | 0 <= k < |s[1..]| ensures !within(s[1..][k]) {
          assert s[k + 1] - s[0] >= window;
        }
        CountNone(s[1..], within);
      } else {
        assert Spaced(s[1..], window);
        CountSpaced(s[1..], window, t);
      }
    }
  }

  /** At a limit of one the full window is bounded whatever the disorder. */
  lemma LimitOneHoldsFullWindow(moments: seq<real>, window: real, t: real)
    ensures Count(AllAccepted(moments, 1, window), x => t <= x < t + window) <= 1
  {
    if window >= 0.0 {
      LimitOneSpaces(moments, window);
      CountSpaced(AllAccepted(moments, 1, window), window, t);
    } else {
      CountNone(AllAccepted(moments, 1, window), x => t <= x < t + window);
    }
  }

  /** Nor is any window longer than the full one, not even when moments come in order and
      whatever the limit. */
  lemma FullWindowIsTight(limit: nat, window: real, length: real)
    requires limit >= 1 && 0.0 < window < length
    ensures var moments := Zeros(limit) + [window];
      OutOfOrderBy(moments, 0.0) && Count(AllAccepted(moments, limit, window), x => 0.0 <= x < 0.0 + length) > limit
  {
    hide After, Count, Expired;
    var within := x => 0.0 <= x < 0.0 + length;
    ZerosAccepted(limit, limit, window);
    ZerosExpire(limit, window);
    AfterOne(Zeros(limit), window, limit, window);
    assert AllAccepted(Zeros(limit) + [window], limit, window) == Zeros(limit) + [window];
    CountConcat(Zeros(limit), [window], within);
    CountEvery(Zeros(limit), within);
    CountOne(window, within);
  }

  lemma AfterOne(moments: seq<real>, moment: real, limit: int, window: real)
    ensures After(moments + [moment], limit, window) == Claimed(After(moments, limit, window), moment, limit, window)
  {
    assert (moments + [moment])[..|moments|] == moments;
  }

  predicate Ordered(s: seq<real>) {
    forall i, j :: 0 <= i < j < |s| ==> s[i] <= s[j]
  }

  predicate NoneLater(s: seq<real>, moment: real) {
    forall k :: 0 <= k < |s| ==> s[k] <= moment
  }

  lemma {:induction false} EventsOrdered(moments: seq<real>, limit: int, window: real)
    requires Ordered(moments)
    ensures var events := After(moments, limit, window).events;
      Ordered(events) && if moments == [] then events == [] else NoneLater(events, moments[|moments| - 1])
  {
    if moments != [] {
      var n := |moments| - 1;
      PrefixOrdered(moments);
      hide Ordered, NoneLater, Expired, Accepts;
      EventsOrdered(moments[..n], limit, window);
      var before := After(moments[..n], limit, window);
      if n > 0 {
        LaterToo(before.events, moments[n - 1], moments[n]);
      } else {
        NothingLater(moments[n]);
      }
      TailOrdered(before.events, Expired(before.events, moments[n], window), moments[n]);
    }
  }

  lemma PrefixOrdered(moments: seq<real>)
    requires Ordered(moments) && moments != []
    ensures Ordered(moments[..|moments| - 1])
    ensures |moments| > 1 ==>
      moments[..|moments| - 1][|moments| - 2] == moments[|moments| - 2] <= moments[|moments| - 1]
  {
  }

  lemma NothingLater(moment: real)
    ensures NoneLater([], moment)
  {
  }

  lemma LaterToo(events: seq<real>, earlier: real, later: real)
    requires NoneLater(events, earlier) && earlier <= later
    ensures NoneLater(events, later)
  {
  }

  /** What stays of ordered events, with and without one more. */
  lemma TailOrdered(events: seq<real>, e: nat, moment: real)
    requires Ordered(events) && NoneLater(events, moment) && e <= |events|
    ensures Ordered(events[e..] + []) && NoneLater(events[e..] + [], moment)
    ensures Ordered(events[e..] + [moment]) && NoneLater(events[e..] + [moment], moment)
  {
    assert events[e..] + [] == events[e..];
  }

  /** When moments arrive in order, a claim is refused exactly when as many claims as the limit
      allows were accepted in the last window. */
  lemma RefusedExactly(moments: seq<real>, moment: real, limit: int, window: real)
    requires Ordered(moments + [moment])
    ensures Accepts(After(moments, limit, window), moment, limit, window)
            <==> Count(AllAccepted(moments, limit, window), x => moment - window < x <= moment) < limit
  {
    hide After, Count, Expired;
    var last := x => moment - window < x <= moment;
    var a := After(moments, limit, window);
    assert Ordered(moments) && NoneLater(moments, moment) by {
      assert forall i :: 0 <= i < |moments| ==> (moments + [moment])[i] == moments[i];
      assert (moments + [moment])[|moments|] == moment;
    }
    EventsOrdered(moments, limit, window);
    DroppedWasExpired(moments, limit, window);
    forall k | 0 <= k < |a.dropped| ensures !last(a.dropped[k]) {
      assert WasExpired(a.dropped[k], moments, window);
      var j :| 0 <= j < |moments| && moments[j] - a.dropped[k] >= window;
    }
    CountNone(a.dropped, last);
    CountConcat(a.dropped, a.events, last);
    CountHeld(a.events, moment, window);
  }

  /** Of ordered events none later than the moment, the last window counts those not expired. */
  lemma CountHeld(events: seq<real>, moment: real, window: real)
    requires Ordered(events) && NoneLater(events, moment)
    ensures Count(events, x => moment - window < x <= moment) == |events| - Expired(events, moment, window)
  {
    var last, e := x => moment - window < x <= moment, Expired(events, moment, window);
    hide Expired, Count;
    assert events == events[..e] + events[e..];
    CountConcat(events[..e], events[e..], last);
    CountNone(events[..e], last);
    CountEvery(events[e..], last);
  }

  class ActionRateBudget {
    const limit: int
    const window: real
    var events: seq<real>
    ghost var history: seq<real>

    ghost predicate Valid() reads this {
      events == After(history, limit, window).events
    }

    constructor (limit: int, window: real)
      ensures Valid() && history == [] && this.limit == limit && this.window == window
    {
      this.limit, this.window, events, history := limit, window, [], [];
    }

    /** `claim` at a moment read before the lock was taken. */
    method Claim(moment: real) returns (accepted: bool)
      requires Valid()
      modifies this
      ensures Valid() && history == old(history) + [moment]
      ensures accepted == Accepts(After(old(history), limit, window), moment, limit, window)
    {
      hide After;
      ghost var e := 0;
      while events != [] && moment - events[0] >= window
        invariant e <= |old(events)| && history == old(history) && events == old(events)[e..]
        invariant Expired(old(events), moment, window) == e + Expired(events, moment, window)
        decreases |events|
      {
        events, e := events[1..], e + 1;
      }
      accepted := |events| < limit;
      if accepted {
        events := events + [moment];
      }
      history := history + [moment];
      AfterOne(old(history), moment, limit, window);
    }
  }

  datatype BudgetLimit = Limit(value: int) | Unconfigured | Invalid

  /** `strip`. */
  function Strip(s: string): string {
    if s != "" && IsSpace(s[0]) then Strip(s[1..])
    else if s != "" && IsSpace(s[|s| - 1]) then Strip(s[..|s| - 1])
    else s
  }

  /** Digits with single underscores between them. */
  predicate IsGrouped(s: string) {
    && s != "" && Decimal.IsDigit(s[0]) && Decimal.IsDigit(s[|s| - 1])
    && (forall k :: 0 <= k < |s| ==> Decimal.IsDigit(s[k]) || s[k] == '_')
    && (forall k :: 0 < k < |s| ==> s[k - 1] != '_' || s[k] != '_')
  }

  function Ungrouped(s: string): (digits: string)
    ensures (forall k :: 0 <= k < |s| ==> Decimal.IsDigit(s[k]) || s[k] == '_') ==>
      forall k :: 0 <= k < |digits| ==> Decimal.IsDigit(digits[k])
    ensures s != "" && Decimal.IsDigit(s[0]) ==> digits != ""
  {
    if s == "" then "" else (if s[0] == '_' then "" else [s[0]]) + Ungrouped(s[1..])
  }

  /** Python's default limit for converting between texts and integers. */
  const MAX_STR_DIGITS := 4300

  /** `int` on ASCII text that has been stripped. */
  function IntOf(s: string): Option<int> {
    var body := if s != "" && (s[0] == '+' || s[0] == '-') then s[1..] else s;
    if !IsGrouped(body) || |Ungrouped(body)| > MAX_STR_DIGITS then None
    else
      var magnitude: int := Decimal.Value(Ungrouped(body));
      Some(if s[0] == '-' then -magnitude else magnitude)
  }

  /** `read_budget_limit`. */
  function ReadBudgetLimit(raw: Option<string>): (r: BudgetLimit)
    ensures r.Limit? ==> r.value >= 1
  {
    if raw.None? || Strip(raw.value) == "" then Unconfigured
    else
      var limit := IntOf(Strip(raw.value));
      if limit.None? || limit.value < 1 then Invalid else Limit(limit.value)
  }

  /** Every ceiling of at least one, of as many digits as Python converts, can be configured
      with white space around it, and none of more. */
  lemma EveryCeilingReads(n: nat, before: string, after: string)
    requires n >= 1
    requires forall k :: 0 <= k < |before| ==> IsSpace(before[k])
    requires forall k :: 0 <= k < |after| ==> IsSpace(after[k])
    ensures ReadBudgetLimit(Some(before + Decimal.Print(n) + after))
            == if |Decimal.Print(n)| <= MAX_STR_DIGITS then Limit(n) else Invalid
  {
    hide Decimal.Print, Decimal.Value, Strip, Ungrouped;
    var s := Decimal.Print(n);
    StripPadding(before, s, after);
    UngroupedDigits(s);
    Decimal.ValueOfPrint(n);
  }

  lemma {:induction false} StripPadding(before: string, s: string, after: string)
    requires s != "" && !IsSpace(s[0]) && !IsSpace(s[|s| - 1])
    requires forall k :: 0 <= k < |before| ==> IsSpace(before[k])
    requires forall k :: 0 <= k < |after| ==> IsSpace(after[k])
    ensures Strip(before + s + after) == s
    decreases |before| + |after|
  {
    var padded := before + s + after;
    if before != "" {
      assert padded[1..] == before[1..] + s + after;
      StripPadding(before[1..], s, after);
    } else if after != "" {
      assert padded[..|padded| - 1] == before + s + after[..|after| - 1];
      assert padded[0] == s[0];
      StripPadding(before, s, after[..|after| - 1]);
    } else {
      assert padded == s;
    }
  }

  lemma {:induction false} UngroupedDigits(s: string)
    requires forall k :: 0 <= k < |s| ==> Decimal.IsDigit(s[k])
    ensures Ungrouped(s) == s
  {
    if s != "" {
      UngroupedDigits(s[1..]);
      assert s == [s[0]] + s[1..];
    }
  }

  /** Of white space nothing is left. */
  lemma {:induction false} StripBlank(s: string)
    requires forall k :: 0 <= k < |s| ==> IsSpace(s[k])
    ensures Strip(s) == ""
  {
    if s != "" {
      StripBlank(s[1..]);
    }
  }

  /** Only the underscores go. */
  lemma {:induction false} UngroupedConcat(a: string, b: string)
    ensures Ungrouped(a + b) == Ungrouped(a) + Ungrouped(b)
  {
    if a == "" {
      assert a + b == b;
    } else {
      assert (a + b)[1..] == a[1..] + b;
      UngroupedConcat(a[1..], b);
    }
  }

  lemma UngroupedOne(c: char)
    ensures Ungrouped([c]) == if c == '_' then "" else [c]
  {
  }

  /** A digit that is not zero stays. */
  lemma {:induction false} UngroupedZeros(s: string)
    requires forall k :: 0 <= k < |s| ==> Decimal.IsDigit(s[k]) || s[k] == '_'
    ensures (exists k :: 0 <= k < |Ungrouped(s)| && Ungrouped(s)[k] != '0')
            <==> exists k :: 0 <= k < |s| && '1' <= s[k] <= '9'
  {
    if s != "" {
      var front := if s[0] == '_' then "" else [s[0]];
      UngroupedZeros(s[1..]);
      assert Ungrouped(s) == front + Ungrouped(s[1..]);
      assert s == [s[0]] + s[1..];
      NonzeroIn(front, Ungrouped(s[1..]));
      assert forall k :: 0 < k < |s| ==> s[k] == s[1..][k - 1];
      assert forall k :: 0 <= k < |s[1..]| ==> s[1..][k] == s[k + 1];
    }
  }

  lemma NonzeroIn(a: string, b: string)
    ensures (exists k :: 0 <= k < |a + b| && (a + b)[k] != '0')
            <==> (exists k :: 0 <= k < |a| && a[k] != '0') || (exists k :: 0 <= k < |b| && b[k] != '0')
  {
    assert forall k :: 0 <= k < |a| ==> (a + b)[k] == a[k];
    assert forall k :: 0 <= k < |b| ==> (a + b)[|a| + k] == b[k];
  }

  /** A text without its sign. */
  function Unsigned(s: string): string {
    if s != "" && (s[0] == '+' || s[0] == '-') then s[1..] else s
  }

  /** An underscore with a digit on both sides. */
  predicate Separates(s: string, k: nat) {
    0 < k < |s| - 1 && s[k] == '_' && '0' <= s[k - 1] <= '9' && '0' <= s[k + 1] <= '9'
  }

  /** Digits, and underscores that each have a digit on both sides. */
  predicate DigitsGrouped(s: string) {
    s != "" && forall k :: 0 <= k < |s| ==> '0' <= s[k] <= '9' || Separates(s, k)
  }

  lemma GroupedMeans(s: string)
    ensures IsGrouped(s) <==> DigitsGrouped(s)
  {
    if IsGrouped(s) {
      forall k | 0 <= k < |s| && s[k] == '_' ensures Separates(s, k) {
        assert s[k - 1] != '_' && s[k + 1] != '_';
      }
    }
    if DigitsGrouped(s) {
      assert s[0] != '_' && s[|s| - 1] != '_';
      assert forall k :: 0 < k < |s| && s[k] == '_' ==> s[k - 1] != '_';
    }
  }

  /** A ceiling is read off a text exactly when, between white space, there are digits with a plus
      sign or none before them and single underscores between them, one of the digits is not zero
      and there are at most 4300 of them; the ceiling is their value. White space alone is no
      ceiling, and every other text an invalid one. */
  lemma ReadsExactly(before: string, s: string, after: string)
    requires forall k :: 0 <= k < |before| ==> IsSpace(before[k])
    requires forall k :: 0 <= k < |after| ==> IsSpace(after[k])
    requires s == "" || (!IsSpace(s[0]) && !IsSpace(s[|s| - 1]))
    ensures ReadBudgetLimit(None) == Unconfigured
    ensures var r, digits := ReadBudgetLimit(Some(before + s + after)), Unsigned(s);
      && (r.Unconfigured? <==> s == "")
      && (r.Limit? <==>
            && DigitsGrouped(digits) && s[0] != '-' && |Ungrouped(digits)| <= 4300
            && exists k :: 0 <= k < |digits| && '1' <= digits[k] <= '9')
      && (r.Limit? ==> Decimal.IsNumeral(Ungrouped(digits)) && r.value == Decimal.Value(Ungrouped(digits)))
  {
    hide Strip, Decimal.Value, Ungrouped, DigitsGrouped, IsGrouped;
    if s == "" {
      StripBlank(before + s + after);
    } else {
      StripPadding(before, s, after);
      GroupedMeans(Unsigned(s));
      if DigitsGrouped(Unsigned(s)) {
        GroupedIsNumeral(Unsigned(s));
        Decimal.ZeroIsZeros(Ungrouped(Unsigned(s)));
        UngroupedZeros(Unsigned(s));
      }
    }
  }

  lemma GroupedIsNumeral(s: string)
    requires IsGrouped(s)
    ensures forall k :: 0 <= k < |s| ==> Decimal.IsDigit(s[k]) || s[k] == '_'
    ensures Decimal.IsNumeral(Ungrouped(s))
  {
  }
}
