/** The login limiter: failure counters with a window and an exponential lock, and the
    pruning of rows nobody can tell are gone. Times are in microseconds. */
module RateLimit {
  import opened Wrappers
  import Strings

  const SECOND: int := 1_000_000
  const WINDOW: int := 900 * SECOND
  const ACCOUNT_THRESHOLD: nat := 5
  const IP_THRESHOLD: nat := 20
  const BASE_BACKOFF: nat := 60
  const MAX_BACKOFF: nat := 3600

  datatype Row = Row(failures: nat, windowStart: int, lockedUntil: Option<int>)

  function Min(a: nat, b: nat): nat {
    if a < b then a else b
  }

  /** Seconds of lock at so many failures past the threshold. */
  function Backoff(past: nat): nat {
    Min(MAX_BACKOFF, BASE_BACKOFF * Pow2(past))
  }

  predicate Locked(row: Row, now: int) {
    row.lockedUntil.Some? && now < row.lockedUntil.value
  }

  predicate WindowStale(row: Row, now: int) {
    now - row.windowStart > WINDOW
  }

  /** `_delay`: whole seconds, rounded up. */
  function Delay(row: Option<Row>, now: int): (seconds: nat)
    ensures seconds == 0 <==> row.None? || !Locked(row.value, now)
  {
    if row.None? || !Locked(row.value, now) then 0
    else (row.value.lockedUntil.value - now + SECOND - 1) / SECOND
  }

  /** `_bump` on one row. */
  function Bumped(row: Option<Row>, threshold: nat, now: int): Row {
    var counting :=
      if row.None? || (WindowStale(row.value, now) && !Locked(row.value, now)) then Row(0, now, None)
      else row.value;
    var failures := counting.failures + 1;
    Row(failures, counting.windowStart,
        if failures >= threshold then Some(now + Backoff(failures - threshold) * SECOND) else counting.lockedUntil)
  }

  /** What the reaper may delete. */
  predicate Stale(row: Row, now: int) {
    WindowStale(row, now) && !Locked(row, now)
  }

  // --------------------------------------------------------------------- the table

  datatype Key = Account(name: string) | Address(ip: string)

  type Table = map<Key, Row>

  function AccountKey(account: string): Key {
    Account(Strings.Lower(account))
  }

  function Lookup(table: Table, key: Key): Option<Row> {
    if key in table then Some(table[key]) else None
  }

  function ThresholdOf(key: Key): nat {
    if key.Account? then ACCOUNT_THRESHOLD else IP_THRESHOLD
  }

  function Max(a: nat, b: nat): nat {
    if a < b then b else a
  }

  function RetryAfterOf(table: Table, ip: string, account: string, now: int): nat {
    Max(Delay(Lookup(table, AccountKey(account)), now), Delay(Lookup(table, Address(ip)), now))
  }

  function Recorded(table: Table, ip: string, account: string, now: int): Table {
    var a, b := AccountKey(account), Address(ip);
    table[a := Bumped(Lookup(table, a), ACCOUNT_THRESHOLD, now)][b := Bumped(Lookup(table, b), IP_THRESHOLD, now)]
  }

  class LoginLimiter {
    var table: Table

    constructor ()
      ensures table == map[]
    {
      table := map[];
    }

    method RetryAfter(ip: string, account: string, now: int) returns (seconds: nat)
      ensures seconds == RetryAfterOf(table, ip, account, now)
      ensures seconds == 0 <==>
                forall key | key in {AccountKey(account), Address(ip)} && key in table :: !Locked(table[key], now)
    {
      var a, b := AccountKey(account), Address(ip);
      seconds := Max(Delay(Lookup(table, a), now), Delay(Lookup(table, b), now));
    }

    method Bump(key: Key, threshold: nat, now: int)
      modifies this
      ensures table == old(table)[key := Bumped(Lookup(old(table), key), threshold, now)]
    {
      var row;
      if key !in table {
        row := Row(0, now, None);
      } else {
        row := table[key];
        var stale := now - row.windowStart > WINDOW;
        var locked := row.lockedUntil.Some? && now < row.lockedUntil.value;
        if stale && !locked {
          row := Row(0, now, None);
        }
      }
      row := row.(failures := row.failures + 1);
      if row.failures >= threshold {
        row := row.(lockedUntil := Some(now + Backoff(row.failures - threshold) * SECOND));
      }
      table := table[key := row];
    }

    method RecordFailure(ip: string, account: string, now: int)
      modifies this
      ensures table == Recorded(old(table), ip, account, now)
    {
      Bump(AccountKey(account), ACCOUNT_THRESHOLD, now);
      Bump(Address(ip), IP_THRESHOLD, now);
    }

    method Reset(ip: string, account: string)
      modifies this
      ensures table == old(table) - {AccountKey(account), Address(ip)}
    {
      table := table - {AccountKey(account)};
      table := table - {Address(ip)};
    }

    method StaleAttempts(now: int) returns (keys: set<Key>)
      ensures forall key :: key in keys <==> key in table && Stale(table[key], now)
    {
      keys := set key | key in table && Stale(table[key], now);
    }
  }

  // ------------------------------------------------------------ one key's history

  /** What happens to the row of one key. */
  datatype Op = Fail(at: int) | Succeed(at: int) | Prune(at: int)

  function RowAfter(ops: seq<Op>, threshold: nat): Option<Row> {
    if ops == [] then None
    else
      var row := RowAfter(ops[..|ops| - 1], threshold);
      match ops[|ops| - 1]
      case Fail(at) => Some(Bumped(row, threshold, at))
      case Succeed(at) => None
      case Prune(at) => if row.Some? && Stale(row.value, at) then None else row
  }

  predicate InOrder(ops: seq<Op>) {
    forall i, j | 0 <= i < j < |ops| :: ops[i].at <= ops[j].at
  }

  /** A failure is recorded only when the limiter had said to go ahead. */
  predicate Gated(ops: seq<Op>, threshold: nat) {
    InOrder(ops) &&
    forall i | 0 <= i < |ops| && ops[i].Fail? :: Delay(RowAfter(ops[..i], threshold), ops[i].at) == 0
  }

  lemma FrontInOrder(ops: seq<Op>, threshold: nat)
    requires ops != []
    ensures InOrder(ops) ==> InOrder(ops[..|ops| - 1])
    ensures Gated(ops, threshold) ==> Gated(ops[..|ops| - 1], threshold)
  {
    var front := ops[..|ops| - 1];
    assert forall i | 0 <= i < |front| :: front[i] == ops[i] && front[..i] == ops[..i];
  }

  /** A row as time in order leaves it: a lock is always the one of the last failure. */
  ghost predicate Lasting(row: Row, threshold: nat, last: int) {
    && row.failures >= 1 && row.windowStart <= last
    && row.lockedUntil == if row.failures >= threshold then Some(last + Backoff(row.failures - threshold) * SECOND) else None
  }

  lemma {:induction false} RowLasting(ops: seq<Op>, threshold: nat) returns (last: int)
    requires InOrder(ops) && threshold >= 1
    ensures RowAfter(ops, threshold).Some? ==>
              Lasting(RowAfter(ops, threshold).value, threshold, last) && ops != [] && last <= ops[|ops| - 1].at
  {
    last := 0;
    if ops != [] {
      var front, op := ops[..|ops| - 1], ops[|ops| - 1];
      FrontInOrder(ops, threshold);
      last := RowLasting(front, threshold);
      assert front != [] ==> front[|front| - 1].at <= op.at;
      if op.Fail? {
        last := op.at;
      }
    }
  }

  lemma {:induction false} Pow2Grows(a: nat, b: nat)
    requires a <= b
    ensures Pow2(a) <= Pow2(b)
  {
    if a < b {
      Pow2Grows(a, b - 1);
    }
  }

  /** Guessing on through a lock, which nothing but the gate forbids, never shortens it. */
  lemma LockNeverShortened(ops: seq<Op>, threshold: nat, now: int)
    requires InOrder(ops + [Fail(now)]) && threshold >= 1
    requires RowAfter(ops, threshold).Some? && Locked(RowAfter(ops, threshold).value, now)
    ensures
      var before, after := RowAfter(ops, threshold).value, RowAfter(ops + [Fail(now)], threshold).value;
      && after.failures == before.failures + 1 && after.lockedUntil.Some?
      && after.lockedUntil.value >= before.lockedUntil.value
  {
    hide RowAfter, Backoff;
    var all := ops + [Fail(now)];
    assert all[..|all| - 1] == ops;
    FrontInOrder(all, threshold);
    var last := RowLasting(ops, threshold);
    assert all[|ops| - 1].at <= all[|ops|].at;
    RowAfterOne(ops, Fail(now), threshold);
    BackoffGrows(RowAfter(ops, threshold).value.failures - threshold);
  }

  lemma BackoffGrows(past: nat)
    ensures Backoff(past) <= Backoff(past + 1)
  {
    Pow2Grows(past, past + 1);
  }

  /** What the gate makes of a row: past the threshold each failure waited out the lock of
      the one before, all within one window. */
  ghost predicate Waited(row: Row, threshold: nat, last: int) {
    && Lasting(row, threshold, last)
    && last - row.windowStart <= WINDOW
    && (row.failures >= threshold ==>
          last - row.windowStart >= BASE_BACKOFF * (Pow2(row.failures - threshold) - 1) * SECOND)
  }

  lemma {:induction false} PastBounded(past: nat)
    requires BASE_BACKOFF * (Pow2(past) - 1) * SECOND <= WINDOW
    ensures past <= 4
  {
    Pow2Small();
    if past > 4 {
      Pow2Grows(5, past);
    }
  }

  lemma BumpWaited(row: Row, threshold: nat, last: int, now: int)
    requires threshold >= 1 && Waited(row, threshold, last) && last <= now && !Locked(row, now)
    ensures Waited(Bumped(Some(row), threshold, now), threshold, now)
  {
    if row.failures >= threshold {
      PastBounded(row.failures - threshold);
      var past := row.failures - threshold;
      Pow2Grows(past, 4);
      assert Pow2(4) == 16;
      assert Backoff(past) == BASE_BACKOFF * Pow2(past);
      assert Pow2(past + 1) == 2 * Pow2(past);
    } else if row.failures + 1 == threshold {
      assert Pow2(0) == 1;
    }
  }

  lemma {:induction false} GatedWaited(ops: seq<Op>, threshold: nat) returns (last: int)
    requires Gated(ops, threshold) && threshold >= 1
    ensures RowAfter(ops, threshold).Some? ==>
              Waited(RowAfter(ops, threshold).value, threshold, last) && ops != [] && last <= ops[|ops| - 1].at
  {
    last := 0;
    if ops != [] {
      var front, op := ops[..|ops| - 1], ops[|ops| - 1];
      FrontInOrder(ops, threshold);
      last := GatedWaited(front, threshold);
      assert front != [] ==> front[|front| - 1].at <= op.at;
      if op.Fail? {
        var row := RowAfter(front, threshold);
        assert Delay(row, op.at) == 0;
        if row.Some? {
          BumpWaited(row.value, threshold, last, op.at);
        } else {
          assert Pow2(0) == 1;
        }
        last := op.at;
      }
    }
  }

  /** However long a gated run, a key never counts more than four failures past its
      threshold, and the k-th of those came at least 60(2^k - 1) seconds into its window. */
  lemma GatedBound(ops: seq<Op>, threshold: nat)
    requires Gated(ops, threshold) && threshold >= 1 && RowAfter(ops, threshold).Some?
    ensures
      var row := RowAfter(ops, threshold).value;
      && row.failures <= threshold + 4
      && (row.failures >= threshold && ops[|ops| - 1].Fail? ==>
            ops[|ops| - 1].at - row.windowStart >= BASE_BACKOFF * (Pow2(row.failures - threshold) - 1) * SECOND)
  {
    hide RowAfter, Gated, Backoff;
    var last := GatedWaited(ops, threshold);
    var row := RowAfter(ops, threshold).value;
    if row.failures >= threshold {
      PastBounded(row.failures - threshold);
    }
  }

  ghost predicate WaitedBy(row: Row, threshold: nat, now: int) {
    exists last: int :: last <= now && Waited(row, threshold, last)
  }

  /** Every row of the table is one the gate let come about. */
  ghost predicate TableWaited(table: Table, now: int) {
    forall key | key in table :: WaitedBy(table[key], ThresholdOf(key), now)
  }

  lemma BumpWaitedBy(row: Option<Row>, threshold: nat, now: int)
    requires threshold >= 1 && Delay(row, now) == 0 && (row.Some? ==> WaitedBy(row.value, threshold, now))
    ensures WaitedBy(Bumped(row, threshold, now), threshold, now)
  {
    if row.Some? {
      var last :| last <= now && Waited(row.value, threshold, last);
      BumpWaited(row.value, threshold, last, now);
    } else {
      Pow2Small();
      assert Waited(Bumped(row, threshold, now), threshold, now);
    }
  }

  /** A whole login: asked first, and recorded only on a zero. The table stays within the
      gate, and so no account counts more than 9 failures and no address more than 24. */
  lemma GatedTable(table: Table, ip: string, account: string, earlier: int, now: int)
    requires TableWaited(table, earlier) && earlier <= now && RetryAfterOf(table, ip, account, now) == 0
    ensures TableWaited(Recorded(table, ip, account, now), now)
    ensures forall key | key in Recorded(table, ip, account, now) ::
              Recorded(table, ip, account, now)[key].failures <= if key.Account? then 9 else 24
  {
    hide Waited, Bumped;
    var after := Recorded(table, ip, account, now);
    forall key | key in after ensures WaitedBy(after[key], ThresholdOf(key), now) {
      if key in table {
        var last :| last <= earlier && Waited(table[key], ThresholdOf(key), last);
        assert WaitedBy(table[key], ThresholdOf(key), now);
      }
      if key == AccountKey(account) || key == Address(ip) {
        BumpWaitedBy(Lookup(table, key), ThresholdOf(key), now);
      }
    }
    forall key | key in after ensures after[key].failures <= if key.Account? then 9 else 24 {
      WithinFour(after[key], ThresholdOf(key), now);
    }
  }

  lemma WithinFour(row: Row, threshold: nat, now: int)
    requires WaitedBy(row, threshold, now)
    ensures row.failures <= threshold + 4
  {
    var last :| last <= now && Waited(row, threshold, last);
    if row.failures >= threshold {
      PastBounded(row.failures - threshold);
    }
  }

  /** A gated run that ends, by some time, with this row. */
  ghost predicate Reaches(ops: seq<Op>, threshold: nat, row: Option<Row>, last: int) {
    Gated(ops, threshold) && RowAfter(ops, threshold) == row && forall op | op in ops :: op.at <= last
  }

  /** One failure more, at a time the gate allows. */
  lemma OneMore(ops: seq<Op>, threshold: nat, row: Option<Row>, last: int, at: int)
    requires Reaches(ops, threshold, row, last) && last <= at && Delay(row, at) == 0
    ensures Reaches(ops + [Fail(at)], threshold, Some(Bumped(row, threshold, at)), at)
  {
    hide Bumped, Delay, RowAfter;
    var all := ops + [Fail(at)];
    RowAfterFail(ops, threshold, at);
    forall i | 0 <= i < |ops| ensures all[i] == ops[i] && all[..i] == ops[..i] && ops[i].at <= at {
      assert ops[i] in ops;
    }
    assert all[..|ops|] == ops;
  }

  lemma RowAfterFail(ops: seq<Op>, threshold: nat, at: int)
    ensures RowAfter(ops + [Fail(at)], threshold) == Some(Bumped(RowAfter(ops, threshold), threshold, at))
  {
    var all := ops + [Fail(at)];
    assert all[..|all| - 1] == ops;
  }

  lemma NothingReached(threshold: nat)
    ensures Reaches([], threshold, None, 0)
  {
  }

  function AtOnce(n: nat): seq<Op> {
    if n == 0 then [] else AtOnce(n - 1) + [Fail(0)]
  }

  lemma {:induction false} AtOnceRow(n: nat, threshold: nat)
    requires n <= threshold && threshold >= 1
    ensures Reaches(AtOnce(n), threshold,
                    if n == 0 then None else Some(Row(n, 0, if n == threshold then Some(60 * SECOND) else None)), 0)
  {
    hide Reaches, RowAfter, Gated;
    Pow2Small();
    NothingReached(threshold);
    if n > 0 {
      AtOnceRow(n - 1, threshold);
      OneMore(AtOnce(n - 1), threshold, if n == 1 then None else Some(Row(n - 1, 0, None)), 0, 0);
    }
  }

  /** And the bound is met: a threshold's worth of failures at once, then one at the end of
      each lock. */
  lemma BoundAttained(threshold: nat) returns (ops: seq<Op>)
    requires threshold >= 1
    ensures Gated(ops, threshold) && RowAfter(ops, threshold).Some?
    ensures RowAfter(ops, threshold).value.failures == threshold + 4
  {
    hide Gated, RowAfter;
    AtOnceRow(threshold, threshold);
    ops := AtOnce(threshold) + [Fail(60 * SECOND)] + [Fail(180 * SECOND)] + [Fail(420 * SECOND)] + [Fail(900 * SECOND)];
    FourMore(AtOnce(threshold), threshold);
  }

  lemma FourMore(ops: seq<Op>, threshold: nat)
    requires threshold >= 1 && Reaches(ops, threshold, Some(Row(threshold, 0, Some(60 * SECOND))), 0)
    ensures Reaches(ops + [Fail(60 * SECOND)] + [Fail(180 * SECOND)] + [Fail(420 * SECOND)] + [Fail(900 * SECOND)],
                    threshold, Some(Row(threshold + 4, 0, Some(1860 * SECOND))), 900 * SECOND)
  {
    hide Reaches;
    Pow2Small();
    OneMore(ops, threshold, Some(Row(threshold, 0, Some(60 * SECOND))), 0, 60 * SECOND);
    var a := ops + [Fail(60 * SECOND)];
    OneMore(a, threshold, Some(Row(threshold + 1, 0, Some(180 * SECOND))), 60 * SECOND, 180 * SECOND);
    var b := a + [Fail(180 * SECOND)];
    OneMore(b, threshold, Some(Row(threshold + 2, 0, Some(420 * SECOND))), 180 * SECOND, 420 * SECOND);
    var c := b + [Fail(420 * SECOND)];
    OneMore(c, threshold, Some(Row(threshold + 3, 0, Some(900 * SECOND))), 420 * SECOND, 900 * SECOND);
  }

  /** The lock after so many failures at one moment: a minute at the threshold, twice as long
      with each more, and never above an hour. */
  lemma LockIs(n: nat, threshold: nat)
    requires threshold >= 1
    ensures
      Delay(RowAfter(AtOnce(n), threshold), 0) ==
        if n < threshold then 0 else if 60 * Pow2(n - threshold) <= 3600 then 60 * Pow2(n - threshold) else 3600
  {
    ManyAtOnce(n, threshold);
    hide RowAfter;
    if n >= threshold {
      LockAnswer(AtOnceLeaves(n, threshold), 0, Backoff(n - threshold));
    }
  }

  function AtOnceLeaves(n: nat, threshold: nat): Row {
    Row(n, 0, if n < threshold then None else Some(Backoff(n - threshold) * SECOND))
  }

  lemma {:induction false} ManyAtOnce(n: nat, threshold: nat)
    requires threshold >= 1
    ensures RowAfter(AtOnce(n), threshold) == if n == 0 then None else Some(AtOnceLeaves(n, threshold))
  {
    hide RowAfter, Bumped, AtOnceLeaves;
    if n == 0 {
      NoRowAtOnce(threshold);
    } else {
      ManyAtOnce(n - 1, threshold);
      RowAfterFail(AtOnce(n - 1), threshold, 0);
      BumpedAtOnce(n - 1, threshold);
    }
  }

  lemma NoRowAtOnce(threshold: nat)
    ensures RowAfter(AtOnce(0), threshold) == None
  {
  }

  lemma BumpedAtOnce(n: nat, threshold: nat)
    requires threshold >= 1
    ensures Bumped(if n == 0 then None else Some(AtOnceLeaves(n, threshold)), threshold, 0) == AtOnceLeaves(n + 1, threshold)
  {
    hide Backoff, Locked;
  }

  /** The window is fifteen minutes: one failure more counts with the first up to that, and
      starts anew after it. */
  lemma WindowIs(threshold: nat, at: int)
    requires threshold >= 3 && at >= 0
    ensures RowAfter([Fail(0), Fail(at)], threshold) == Some(if at <= 900_000_000 then Row(2, 0, None) else Row(1, at, None))
  {
    RowAfterFail([], threshold, 0);
    RowAfterFail([Fail(0)], threshold, at);
    assert [] + [Fail(0)] == [Fail(0)] && [Fail(0)] + [Fail(at)] == [Fail(0), Fail(at)];
  }

  /** Waiting as long as told is enough, and a second less is not. */
  lemma DelayIs(row: Row, now: int)
    requires row.lockedUntil.Some?
    ensures
      var wait := Delay(Some(row), now);
      && row.lockedUntil.value <= now + wait * 1_000_000
      && (wait > 0 ==> row.lockedUntil.value > now + (wait - 1) * 1_000_000)
  {
  }

  // ------------------------------------------------------------------ whole logins

  /** What a caller can do, and see: only `retry_after` answers. */
  datatype Call = Ask(ip: string, account: string, at: int) | Miss(ip: string, account: string, at: int) | Clear(ip: string, account: string, at: int) | Reap(at: int)

  function TableAfter(table: Table, call: Call): Table {
    match call
    case Ask(ip, account, at) => table
    case Miss(ip, account, at) => Recorded(table, ip, account, at)
    case Clear(ip, account, at) => table - {AccountKey(account), Address(ip)}
    case Reap(at) => Reaped(table, at)
  }

  function Reaped(table: Table, now: int): Table {
    map key | key in table && !Stale(table[key], now) :: table[key]
  }

  function TableOf(calls: seq<Call>): Table {
    if calls == [] then map[] else TableAfter(TableOf(calls[..|calls| - 1]), calls[|calls| - 1])
  }

  /** What a call means to whoever it was, or was not, about. */
  function OpsOf(call: Call, mine: bool): seq<Op> {
    if call.Reap? then [Prune(call.at)]
    else if call.Miss? && mine then [Fail(call.at)]
    else if call.Clear? && mine then [Succeed(call.at)]
    else []
  }

  /** What has happened to one account, however it was spelled. */
  function AccountOps(calls: seq<Call>, account: string): seq<Op> {
    if calls == [] then []
    else
      var call := calls[|calls| - 1];
      AccountOps(calls[..|calls| - 1], account) + OpsOf(call, !call.Reap? && Strings.SameLetters(call.account, account))
  }

  /** And to one address. */
  function AddressOps(calls: seq<Call>, ip: string): seq<Op> {
    if calls == [] then []
    else
      var call := calls[|calls| - 1];
      AddressOps(calls[..|calls| - 1], ip) + OpsOf(call, !call.Reap? && call.ip == ip)
  }

  lemma RowAfterOne(ops: seq<Op>, op: Op, threshold: nat)
    ensures
      var row := RowAfter(ops, threshold);
      RowAfter(ops + [op], threshold) ==
        if op.Fail? then Some(Bumped(row, threshold, op.at))
        else if op.Succeed? || (row.Some? && Stale(row.value, op.at)) then None
        else row
  {
    assert (ops + [op])[..|ops|] == ops;
  }

  /** What one call makes of the row of one account or address. */
  function RowStep(row: Option<Row>, call: Call, mine: bool, threshold: nat): Option<Row> {
    match call
    case Ask(_, _, _) => row
    case Miss(_, _, at) => if mine then Some(Bumped(row, threshold, at)) else row
    case Clear(_, _, _) => if mine then None else row
    case Reap(at) => if row.Some? && Stale(row.value, at) then None else row
  }

  lemma CallSteps(table: Table, call: Call, account: string, ip: string)
    ensures
      Lookup(TableAfter(table, call), AccountKey(account)) ==
        RowStep(Lookup(table, AccountKey(account)), call, !call.Reap? && Strings.SameLetters(call.account, account), 5)
    ensures
      Lookup(TableAfter(table, call), Address(ip)) ==
        RowStep(Lookup(table, Address(ip)), call, !call.Reap? && call.ip == ip, 20)
  {
    hide Bumped, Stale;
    if !call.Reap? {
      Strings.LowerSame(call.account, account);
    }
  }

  lemma OpsStep(ops: seq<Op>, call: Call, mine: bool, threshold: nat)
    ensures RowAfter(ops + OpsOf(call, mine), threshold) == RowStep(RowAfter(ops, threshold), call, mine, threshold)
  {
    hide Bumped, Stale, RowAfter;
    assert ops + [] == ops;
    if OpsOf(call, mine) != [] {
      RowAfterOne(ops, OpsOf(call, mine)[0], threshold);
    }
  }

  /** The table holds, under each key, what the account's or the address's own history makes
      of no row: all spellings of an account are one, and nobody else's failures count. */
  lemma {:induction false} HistoryIs(calls: seq<Call>, account: string, ip: string)
    ensures Lookup(TableOf(calls), AccountKey(account)) == RowAfter(AccountOps(calls, account), 5)
    ensures Lookup(TableOf(calls), Address(ip)) == RowAfter(AddressOps(calls, ip), 20)
  {
    hide RowAfter, RowStep, TableAfter, OpsOf;
    if calls == [] {
      NoRow();
    } else {
      var front, call := calls[..|calls| - 1], calls[|calls| - 1];
      HistoryIs(front, account, ip);
      CallSteps(TableOf(front), call, account, ip);
      OpsStep(AccountOps(front, account), call, !call.Reap? && Strings.SameLetters(call.account, account), 5);
      OpsStep(AddressOps(front, ip), call, !call.Reap? && call.ip == ip, 20);
    }
  }

  lemma NoRow()
    ensures RowAfter([], 5) == None && RowAfter([], 20) == None
  {
  }

  /** So what a caller is told depends on nothing but those two histories, the longer wait
      winning: neither another spelling nor another address is a way round a lock. */
  lemma AnswerIs(calls: seq<Call>, ip: string, account: string, now: int)
    ensures
      var mine, here := Delay(RowAfter(AccountOps(calls, account), 5), now), Delay(RowAfter(AddressOps(calls, ip), 20), now);
      RetryAfterOf(TableOf(calls), ip, account, now) == if mine >= here then mine else here
  {
    HistoryIs(calls, account, ip);
  }

  /** Logins as they come: in order, asked first, and recorded only on a zero. */
  predicate GatedLogins(calls: seq<Call>) {
    && (forall i, j | 0 <= i < j < |calls| :: calls[i].at <= calls[j].at)
    && forall i | 0 <= i < |calls| && calls[i].Miss? ::
         RetryAfterOf(TableOf(calls[..i]), calls[i].ip, calls[i].account, calls[i].at) == 0
  }

  lemma FrontGated(calls: seq<Call>)
    requires calls != [] && GatedLogins(calls)
    ensures GatedLogins(calls[..|calls| - 1])
  {
    var front := calls[..|calls| - 1];
    assert forall i | 0 <= i < |front| :: front[i] == calls[i] && front[..i] == calls[..i];
  }

  /** One operation more keeps a history gated, if it is later and, being a failure, free. */
  lemma GatedMore(ops: seq<Op>, op: Op, threshold: nat)
    requires Gated(ops, threshold) && forall o | o in ops :: o.at <= op.at
    requires op.Fail? ==> Delay(RowAfter(ops, threshold), op.at) == 0
    ensures Gated(ops + [op], threshold)
  {
    var all := ops + [op];
    assert forall i | 0 <= i < |ops| :: all[i] == ops[i] && all[..i] == ops[..i] && ops[i] in ops;
    assert all[..|ops|] == ops;
  }

  lemma NothingGated()
    ensures Gated([], 5) && Gated([], 20)
  {
  }

  /** A recorded failure was free for its account and for its address. */
  lemma MissIsFree(calls: seq<Call>, account: string, ip: string)
    requires calls != [] && GatedLogins(calls) && calls[|calls| - 1].Miss?
    ensures
      var front, call := calls[..|calls| - 1], calls[|calls| - 1];
      && (Strings.SameLetters(call.account, account) ==> Delay(RowAfter(AccountOps(front, account), 5), call.at) == 0)
      && (call.ip == ip ==> Delay(RowAfter(AddressOps(front, ip), 20), call.at) == 0)
  {
    var front, call := calls[..|calls| - 1], calls[|calls| - 1];
    HistoryIs(front, account, ip);
    Strings.LowerSame(call.account, account);
    hide RowAfter, Delay;
  }

  lemma {:induction false} HistoryGated(calls: seq<Call>, account: string, ip: string)
    requires GatedLogins(calls)
    ensures Gated(AccountOps(calls, account), 5) && Gated(AddressOps(calls, ip), 20)
    ensures forall op | op in AccountOps(calls, account) || op in AddressOps(calls, ip) :: calls != [] && op.at <= calls[|calls| - 1].at
  {
    hide Gated, RowAfter, Delay;
    if calls == [] {
      NothingGated();
    } else {
      var front, call := calls[..|calls| - 1], calls[|calls| - 1];
      FrontGated(calls);
      HistoryGated(front, account, ip);
      assert front != [] ==> front[|front| - 1].at <= call.at;
      var a, b := AccountOps(front, account), AddressOps(front, ip);
      assert a + [] == a && b + [] == b;
      match call
      case Ask(_, _, _) =>
      case Miss(from, name, at) =>
        MissIsFree(calls, account, ip);
        if Strings.SameLetters(name, account) {
          GatedMore(a, Fail(at), 5);
        }
        if from == ip {
          GatedMore(b, Fail(at), 20);
        }
      case Clear(_, _, at) =>
        GatedMore(a, Succeed(at), 5);
        GatedMore(b, Succeed(at), 20);
      case Reap(at) =>
        GatedMore(a, Prune(at), 5);
        GatedMore(b, Prune(at), 20);
    }
  }

  function Fails(ops: seq<Op>): nat {
    if ops == [] then 0 else Fails(ops[..|ops| - 1]) + if ops[|ops| - 1].Fail? then 1 else 0
  }

  /** A row counts the failures since its window began, with no success in between. */
  lemma {:induction false} RowCounts(ops: seq<Op>, threshold: nat) returns (i: nat)
    ensures RowAfter(ops, threshold).Some? ==>
              var row := RowAfter(ops, threshold).value;
              && i < |ops| && ops[i] == Fail(row.windowStart)
              && Fails(ops[i..]) == row.failures
              && forall j | i <= j < |ops| :: !ops[j].Succeed?
  {
    i := 0;
    if ops != [] {
      var front, op := ops[..|ops| - 1], ops[|ops| - 1];
      var k := RowCounts(front, threshold);
      i := k;
      var row, before := RowAfter(ops, threshold), RowAfter(front, threshold);
      if op.Fail? && (before.None? || (WindowStale(before.value, op.at) && !Locked(before.value, op.at))) {
        i := |front|;
        assert ops[i..] == [op] && Fails([]) == 0 && [op][..0] == [];
      } else if row.Some? {
        var tail := front[i..];
        assert ops[i..] == tail + [op] && (tail + [op])[..|tail|] == tail;
      }
    }
  }

  /** Within one window of the limiter at most 9 failures are recorded over all spellings of
      an account, and at most 24 from an address. */
  lemma LoginsBounded(calls: seq<Call>, account: string, ip: string) returns (i: nat, j: nat)
    requires GatedLogins(calls)
    ensures
      var ops, row := AccountOps(calls, account), Lookup(TableOf(calls), AccountKey(account));
      row.Some? ==> i < |ops| && ops[i] == Fail(row.value.windowStart) && Fails(ops[i..]) == row.value.failures <= 9
    ensures
      var ops, row := AddressOps(calls, ip), Lookup(TableOf(calls), Address(ip));
      row.Some? ==> j < |ops| && ops[j] == Fail(row.value.windowStart) && Fails(ops[j..]) == row.value.failures <= 24
  {
    hide Gated, RowAfter, Bumped, Stale;
    HistoryIs(calls, account, ip);
    HistoryGated(calls, account, ip);
    i := RowCounts(AccountOps(calls, account), 5);
    j := RowCounts(AddressOps(calls, ip), 20);
    if RowAfter(AccountOps(calls, account), 5).Some? {
      GatedBound(AccountOps(calls, account), 5);
    }
    if RowAfter(AddressOps(calls, ip), 20).Some? {
      GatedBound(AddressOps(calls, ip), 20);
    }
  }

  // ----------------------------------------------------------------------- pruning

  function Answers(table: Table, calls: seq<Call>): seq<nat>
    decreases |calls|
  {
    if calls == [] then []
    else
      (if calls[0].Ask? then [RetryAfterOf(table, calls[0].ip, calls[0].account, calls[0].at)] else [])
      + Answers(TableAfter(table, calls[0]), calls[1..])
  }

  predicate NotBefore(calls: seq<Call>, t: int) {
    forall c | c in calls :: c.Clear? || c.at >= t
  }

  /** The same row, or a stale one and none. */
  predicate AlikeRows(a: Option<Row>, b: Option<Row>, t: int) {
    a == b || (b.None? && Stale(a.value, t))
  }

  ghost predicate Alike(full: Table, pruned: Table, t: int) {
    forall key :: AlikeRows(Lookup(full, key), Lookup(pruned, key), t)
  }

  lemma AlikeBehave(a: Option<Row>, b: Option<Row>, t: int, threshold: nat, now: int)
    requires AlikeRows(a, b, t) && now >= t
    ensures Delay(a, now) == Delay(b, now) && Bumped(a, threshold, now) == Bumped(b, threshold, now)
  {
  }

  lemma AlikeAfter(full: Table, pruned: Table, t: int, call: Call)
    requires Alike(full, pruned, t) && NotBefore([call], t)
    ensures Alike(TableAfter(full, call), TableAfter(pruned, call), t)
  {
    assert call in [call];
    if call.Miss? {
      var a, b := AccountKey(call.account), Address(call.ip);
      AlikeBehave(Lookup(full, a), Lookup(pruned, a), t, ACCOUNT_THRESHOLD, call.at);
      AlikeBehave(Lookup(full, b), Lookup(pruned, b), t, IP_THRESHOLD, call.at);
      forall key ensures AlikeRows(Lookup(TableAfter(full, call), key), Lookup(TableAfter(pruned, call), key), t) {
        assert AlikeRows(Lookup(full, key), Lookup(pruned, key), t);
      }
    } else {
      forall key ensures AlikeRows(Lookup(TableAfter(full, call), key), Lookup(TableAfter(pruned, call), key), t) {
        assert AlikeRows(Lookup(full, key), Lookup(pruned, key), t);
      }
    }
  }

  lemma {:induction false} AlikeAnswers(full: Table, pruned: Table, t: int, calls: seq<Call>)
    requires Alike(full, pruned, t) && NotBefore(calls, t)
    ensures Answers(full, calls) == Answers(pruned, calls)
    decreases |calls|
  {
    if calls != [] {
      var call := calls[0];
      AlikeAfter(full, pruned, t, call);
      AlikeAnswers(TableAfter(full, call), TableAfter(pruned, call), t, calls[1..]);
      if call.Ask? {
        var a, b := AccountKey(call.account), Address(call.ip);
        AlikeBehave(Lookup(full, a), Lookup(pruned, a), t, ACCOUNT_THRESHOLD, call.at);
        AlikeBehave(Lookup(full, b), Lookup(pruned, b), t, IP_THRESHOLD, call.at);
      }
    }
  }

  /** Deleting any of the rows the reaper selects changes no later answer. */
  lemma PruningUnobservable(table: Table, keys: set<Key>, t: int, calls: seq<Call>)
    requires forall key | key in keys && key in table :: Stale(table[key], t)
    requires NotBefore(calls, t)
    ensures Answers(table, calls) == Answers(table - keys, calls)
  {
    forall key ensures AlikeRows(Lookup(table, key), Lookup(table - keys, key), t) {
    }
    AlikeAnswers(table, table - keys, t, calls);
  }

  /** A key's row after so many failures at one moment. */
  function BumpedTimes(row: Option<Row>, threshold: nat, t: int, n: nat): Option<Row> {
    if n == 0 then row else Some(Bumped(BumpedTimes(row, threshold, t, n - 1), threshold, t))
  }

  lemma {:induction false} BumpsCount(row: Row, threshold: nat, t: int, n: nat)
    requires !WindowStale(row, t) && row.lockedUntil.None? && row.failures < threshold && row.failures + n <= threshold
    ensures BumpedTimes(Some(row), threshold, t, n)
            == Some(Row(row.failures + n, row.windowStart, if row.failures + n == threshold then Some(t + 60 * SECOND) else None))
  {
    if n > 0 {
      BumpsCount(row, threshold, t, n - 1);
      Pow2Small();
    }
  }

  lemma {:induction false} BumpsFromNone(threshold: nat, t: int, n: nat)
    requires n < threshold
    ensures Delay(BumpedTimes(None, threshold, t, n), t) == 0
  {
    if n > 0 {
      BumpsShift(None, threshold, t, n - 1);
      BumpsCount(Row(1, t, None), threshold, t, n - 1);
    }
  }

  lemma {:induction false} BumpsShift(row: Option<Row>, threshold: nat, t: int, n: nat)
    ensures BumpedTimes(row, threshold, t, n + 1) == BumpedTimes(Some(Bumped(row, threshold, t)), threshold, t, n)
  {
    if n > 0 {
      BumpsShift(row, threshold, t, n - 1);
    }
  }

  lemma LockAnswer(row: Row, t: int, seconds: nat)
    requires row.lockedUntil == Some(t + seconds * SECOND)
    ensures Delay(Some(row), t) == seconds
  {
  }

  /** Nor could the reaper take more. Of the rows a key can have, exactly the stale ones
      cannot be told from none: any other locks now, or locks after some number of failures
      that would not lock a fresh key, or would not lock it as long. */
  lemma PruningExact(row: Row, threshold: nat, last: int, t: int)
    requires threshold >= 1 && Lasting(row, threshold, last) && last <= t
    ensures Stale(row, t)
            <==> forall n: nat :: Delay(BumpedTimes(Some(row), threshold, t, n), t) == Delay(BumpedTimes(None, threshold, t, n), t)
  {
    hide BumpedTimes, Bumped, Lasting, Delay;
    if Stale(row, t) {
      forall n: nat ensures Delay(BumpedTimes(Some(row), threshold, t, n), t) == Delay(BumpedTimes(None, threshold, t, n), t) {
        StaleLikeNone(row, threshold, t, n);
      }
    } else {
      var n := ToldApart(row, threshold, last, t);
    }
  }

  lemma StaleLikeNone(row: Row, threshold: nat, t: int, n: nat)
    requires Stale(row, t)
    ensures Delay(BumpedTimes(Some(row), threshold, t, n), t) == Delay(BumpedTimes(None, threshold, t, n), t)
  {
    AlikeBehave(Some(row), None, t, threshold, t);
    if n > 0 {
      hide BumpedTimes, Bumped, Delay;
      BumpsShift(Some(row), threshold, t, n - 1);
      BumpsShift(None, threshold, t, n - 1);
    }
  }

  lemma ToldApart(row: Row, threshold: nat, last: int, t: int) returns (n: nat)
    requires threshold >= 1 && Lasting(row, threshold, last) && last <= t && !Stale(row, t)
    ensures Delay(BumpedTimes(Some(row), threshold, t, n), t) != Delay(BumpedTimes(None, threshold, t, n), t)
  {
    if Locked(row, t) {
      n := 0;
    } else if row.failures < threshold {
      n := threshold - row.failures;
      BumpsCount(row, threshold, t, n);
      BumpsFromNone(threshold, t, n);
    } else {
      n := 1;
      BumpsShift(Some(row), threshold, t, 0);
      BumpsShift(None, threshold, t, 0);
      var past := row.failures + 1 - threshold;
      Pow2Grows(1, past);
      Pow2Small();
      LockAnswer(Bumped(Some(row), threshold, t), t, Backoff(past));
      if threshold == 1 {
        LockAnswer(Bumped(None, threshold, t), t, 60);
      }
    }
  }
}
