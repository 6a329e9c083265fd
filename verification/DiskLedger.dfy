/**
 Disk reservations: the per-job map changed under a mutex, the global counter adjusted after the
 unlock, and the admission check that reads the counter.
 */
module DiskLedger {
  import opened Sums

  type Job = string

  const TWO_TO63: int := 0x8000_0000_0000_0000
  const TWO_TO64: int := 0x1_0000_0000_0000_0000

  /** int64(float64(torrentBytes) * DiskMultiplier), in exact arithmetic: 13 tenths, rounded down. */
  function RequiredBytes(torrentBytes: nat): (need: nat)
    ensures 10 * need <= 13 * torrentBytes < 10 * (need + 1)
  {
    (torrentBytes as real * 1.3).Floor
  }

  // ------------------------------------------------------------- effective free space

  function ToInt64(x: int): int
    requires 0 <= x < TWO_TO64
  {
    if x < TWO_TO63 then x else x - TWO_TO64
  }

  /** The lesser of the measured free bytes and what the configured cap leaves. */
  function Budget(free: int, used: int, maxBytes: int): (b: int)
    requires 0 <= free && 0 <= used
    ensures 0 <= b <= free
    ensures maxBytes > 0 ==> b + used <= maxBytes || b == 0
    ensures maxBytes > 0 && used < maxBytes ==> b == free || b + used == maxBytes
  {
    if maxBytes <= 0 then free
    else if used >= maxBytes then 0
    else if maxBytes - used < free then maxBytes - used
    else free
  }

  /** free minus the reserved counter, as the code computes it on unsigned and signed words. */
  function AfterReservations(free: int, reserved: int): int
    requires 0 <= free < TWO_TO64
  {
    if reserved <= 0 then free
    else if ToInt64(free) <= reserved then 0
    else (free - reserved) % TWO_TO64
  }

  function Max(a: int, b: int): int {
    if a > b then a else b
  }

  /**
   The result is free - reserved, cut off at 0, exactly when the free figure fits a signed word or
   nothing is reserved; a larger figure (such as the 2^64-1 of the stub for other systems) reads
   as no space at all as soon as one byte is reserved.
   */
  lemma AfterReservationsExact(free: int, reserved: int)
    requires 0 <= free < TWO_TO64 && 0 <= reserved < TWO_TO63
    ensures AfterReservations(free, reserved) == Max(0, free - reserved) <==> free < TWO_TO63 || reserved == 0
    ensures 0 <= AfterReservations(free, reserved) <= free
  {
    if 0 < reserved && free < TWO_TO63 && reserved < free {
      assert 0 <= free - reserved < TWO_TO64;
    }
  }

  // ------------------------------------------------------------- one caller at a time

  class Ledger {
    var diskReserved: int
    var reservations: map<Job, int>

    ghost predicate Valid()
      reads this
    {
      && diskReserved == SumMap(reservations)
      && forall j :: j in reservations ==> reservations[j] >= 0
    }

    constructor ()
      ensures Valid() && reservations == map[]
    {
      diskReserved := 0;
      reservations := map[];
    }

    method ReserveDisk(jobName: Job, torrentBytes: nat)
      requires Valid()
      modifies this
      ensures Valid()
      ensures reservations == old(reservations)[jobName := RequiredBytes(torrentBytes)]
      ensures diskReserved
           == old(diskReserved) - Get(old(reservations), jobName) + RequiredBytes(torrentBytes)
    {
      var reserve: int := RequiredBytes(torrentBytes);
      var prevReserve := Get(reservations, jobName);
      SumMapPut(reservations, jobName, reserve);
      reservations := reservations[jobName := reserve];
      var delta := reserve - prevReserve;
      diskReserved := diskReserved + delta;
    }

    method ReleaseDisk(jobName: Job)
      requires Valid()
      modifies this
      ensures Valid()
      ensures reservations == old(reservations) - {jobName}
    {
      SumMapDrop(reservations, jobName);
      if jobName in reservations {
        var reserve := reservations[jobName];
        reservations := reservations - {jobName};
        diskReserved := diskReserved - reserve;
      } else {
        assert reservations - {jobName} == reservations;
      }
    }

    /**
     The pre-flight of a download: refuse, or claim the space. What is claimed has to fit beside what
     is reserved, into the free bytes and, where there is a cap, beside what is used under the cap; a
     figure of 2^63 or more is only any good while nothing is reserved. A refusal changes nothing.
     When the measurement fails, the download is let in unchecked.
     */
    method Admit(jobName: Job, torrentBytes: nat, measured: bool, free: int, used: int, maxBytes: int)
      returns (ok: bool)
      requires Valid() && 0 <= free < 0x1_0000_0000_0000_0000 && 0 <= used
      modifies this
      ensures Valid()
      ensures var need, reserved := RequiredBytes(torrentBytes), old(diskReserved);
              ok <==> !measured || need == 0 ||
                      (&& reserved + need <= free
                       && (maxBytes > 0 ==> used + reserved + need <= maxBytes)
                       && (reserved == 0 || free < 0x8000_0000_0000_0000
                           || (maxBytes > 0 && maxBytes - used < 0x8000_0000_0000_0000)))
      ensures measured && ok && RequiredBytes(torrentBytes) > 0 ==>
                diskReserved <= free && (maxBytes > 0 ==> used + diskReserved <= maxBytes)
      ensures reservations == if ok then old(reservations)[jobName := RequiredBytes(torrentBytes)]
                              else old(reservations)
    {
      SumMapNonNegative(reservations);
      if measured {
        var effective := AfterReservations(Budget(free, used, maxBytes), diskReserved);
        if diskReserved < TWO_TO63 {
          AfterReservationsExact(Budget(free, used, maxBytes), diskReserved);
        }
        if effective < RequiredBytes(torrentBytes) {
          return false;
        }
      }
      assert Get(reservations, jobName) >= 0;
      ReserveDisk(jobName, torrentBytes);
      return true;
    }
  }

  /** Claiming and then releasing leaves every other job's reservation as it was. */
  method ReserveThenRelease(l: Ledger, jobName: Job, torrentBytes: nat)
    requires l.Valid()
    modifies l
    ensures l.Valid()
    ensures l.reservations == old(l.reservations) - {jobName}
    ensures l.diskReserved == old(l.diskReserved) - Get(old(l.reservations), jobName)
  {
    SumMapDrop(l.reservations, jobName);
    l.ReserveDisk(jobName, torrentBytes);
    l.ReleaseDisk(jobName);
    assert l.reservations == old(l.reservations) - {jobName};
  }

  // ------------------------------------------------------------- any interleaving

  /** A granted check that has not claimed its space yet. */
  datatype Ticket = Ticket(job: Job, need: nat)

  /** `inFlight` are the deltas decided under the mutex and not yet added to the counter. */
  datatype State = State(counter: int, reservations: map<Job, int>, inFlight: seq<int>, tickets: seq<Ticket>)

  datatype Event =
    | Check(job: Job, need: nat)   // compare effective free space with the need
    | Claim(i: nat)                // ReserveDisk of a granted check, up to the unlock
    | Release(job: Job)            // ReleaseDisk, up to the unlock
    | Add(i: nat)                  // atomic.AddInt64 of one in-flight delta

  predicate Enabled(s: State, e: Event) {
    match e
    case Claim(i) => i < |s.tickets|
    case Add(i) => i < |s.inFlight|
    case _ => true
  }

  function Without<T>(s: seq<T>, i: nat): seq<T>
    requires i < |s|
  {
    s[..i] + s[i + 1..]
  }

  function Apply(free: int, s: State, e: Event): State
    requires Enabled(s, e) && 0 <= free < TWO_TO64
  {
    match e
    case Check(job, need) =>
      if AfterReservations(free, s.counter) < need then s
      else s.(tickets := s.tickets + [Ticket(job, need)])
    case Claim(i) =>
      var t := s.tickets[i];
      s.(tickets := Without(s.tickets, i),
         reservations := s.reservations[t.job := t.need],
         inFlight := s.inFlight + [t.need - Get(s.reservations, t.job)])
    case Release(job) =>
      if job in s.reservations then
        s.(reservations := s.reservations - {job}, inFlight := s.inFlight + [-s.reservations[job]])
      else s
    case Add(i) => s.(counter := s.counter + s.inFlight[i], inFlight := Without(s.inFlight, i))
  }

  function Run(free: int, s: State, events: seq<Event>): (r: (bool, State))
    requires 0 <= free < TWO_TO64
    decreases |events|
  {
    if events == [] then (true, s)
    else if Enabled(s, events[0]) then Run(free, Apply(free, s, events[0]), events[1..])
    else (false, s)
  }

  const EMPTY := State(0, map[], [], [])

  /** Counter plus what is decided but not added is the sum of the map. */
  ghost predicate Reconciled(s: State) {
    s.counter + SumSeq(s.inFlight) == SumMap(s.reservations)
  }

  lemma ReconciledKept(free: int, s: State, e: Event)
    requires 0 <= free < TWO_TO64 && Enabled(s, e) && Reconciled(s)
    ensures Reconciled(Apply(free, s, e))
  {
    match e
    case Check(_, _) =>
    case Claim(i) =>
      var t := s.tickets[i];
      SumMapPut(s.reservations, t.job, t.need);
      SumSeqAppend(s.inFlight, t.need - Get(s.reservations, t.job));
    case Release(job) =>
      SumMapDrop(s.reservations, job);
      if job in s.reservations {
        SumSeqAppend(s.inFlight, -s.reservations[job]);
      }
    case Add(i) =>
      SumSeqDrop(s.inFlight, i);
  }

  /**
   Under every interleaving the counter differs from the sum of the map by exactly the deltas in
   flight; so whenever no call is between its unlock and its add, the counter is that sum.
   */
  lemma {:induction false} CounterReconciles(free: int, s: State, events: seq<Event>)
    requires 0 <= free < TWO_TO64 && Reconciled(s)
    ensures Reconciled(Run(free, s, events).1)
    ensures var r := Run(free, s, events).1; r.inFlight == [] ==> r.counter == SumMap(r.reservations)
    decreases |events|
  {
    if events != [] && Enabled(s, events[0]) {
      ReconciledKept(free, s, events[0]);
      CounterReconciles(free, Apply(free, s, events[0]), events[1..]);
    }
  }

  // ------------------------------------------------------------- capacity

  /** The delta of a claim is added before anything is checked, and one check is outstanding at most. */
  predicate Serial(s: State, e: Event) {
    e.Check? ==> s.tickets == [] && forall i :: 0 <= i < |s.inFlight| ==> s.inFlight[i] <= 0
  }

  predicate SerialRun(free: int, s: State, events: seq<Event>)
    requires 0 <= free < TWO_TO64
    decreases |events|
  {
    events == [] ||
    (Enabled(s, events[0]) && Serial(s, events[0]) && SerialRun(free, Apply(free, s, events[0]), events[1..]))
  }

  /** The part of the in-flight deltas that will still raise the counter. */
  function Raises(s: seq<int>): nat {
    if s == [] then 0 else (if s[0] > 0 then s[0] else 0) + Raises(s[1..])
  }

  lemma {:induction false} RaisesAppend(s: seq<int>, x: int)
    ensures Raises(s + [x]) == Raises(s) + if x > 0 then x else 0
  {
    if s != [] {
      assert (s + [x])[1..] == s[1..] + [x];
      RaisesAppend(s[1..], x);
    }
  }

  lemma {:induction false} RaisesDrop(s: seq<int>, i: nat)
    requires i < |s|
    ensures Raises(Without(s, i)) == Raises(s) - if s[i] > 0 then s[i] else 0
  {
    if i == 0 {
      assert Without(s, 0) == s[1..];
    } else {
      assert Without(s, i)[1..] == Without(s[1..], i - 1);
      RaisesDrop(s[1..], i - 1);
    }
  }

  lemma {:induction false} RaisesNothing(s: seq<int>)
    requires forall i :: 0 <= i < |s| ==> s[i] <= 0
    ensures Raises(s) == 0
  {
    if s != [] {
      RaisesNothing(s[1..]);
    }
  }

  lemma {:induction false} RaisesBound(s: seq<int>)
    ensures SumSeq(s) <= Raises(s)
  {
    if s != [] {
      RaisesBound(s[1..]);
    }
  }

  ghost predicate WithinCapacity(free: int, s: State) {
    && Reconciled(s)
    && (forall j :: j in s.reservations ==> s.reservations[j] >= 0)
    && |s.tickets| <= 1
    && s.counter + Raises(s.inFlight) + (if s.tickets == [] then 0 else s.tickets[0].need) <= free
  }

  lemma CapacityKept(free: int, s: State, e: Event)
    requires 0 <= free < TWO_TO63
    requires WithinCapacity(free, s) && Enabled(s, e) && Serial(s, e)
    ensures WithinCapacity(free, Apply(free, s, e))
  {
    ReconciledKept(free, s, e);
    match e
    case Check(_, _) =>
      RaisesNothing(s.inFlight);
      SumSeqNotPositive(s.inFlight);
      SumMapNonNegative(s.reservations);
      AfterReservationsExact(free, s.counter);
    case Claim(i) =>
      var t := s.tickets[i];
      RaisesAppend(s.inFlight, t.need - Get(s.reservations, t.job));
      assert Without(s.tickets, i) == [];
    case Release(job) =>
      if job in s.reservations {
        RaisesAppend(s.inFlight, -s.reservations[job]);
      }
    case Add(i) =>
      RaisesDrop(s.inFlight, i);
  }

  /**
   With a constant measured capacity below 2^63, and check-then-reserve pairs that do not overlap
   (releases may interleave anywhere), the reservations never exceed the capacity, the counter
   stays a non-negative signed word at every check, and the unsigned subtraction never wraps.
   */
  lemma {:induction false} NeverOverCapacity(free: int, s: State, events: seq<Event>)
    requires 0 <= free < TWO_TO63
    requires WithinCapacity(free, s) && SerialRun(free, s, events)
    ensures var r := Run(free, s, events).1;
            && WithinCapacity(free, r)
            && SumMap(r.reservations) <= free
            && r.counter <= free
            && ((forall i :: 0 <= i < |r.inFlight| ==> r.inFlight[i] <= 0) ==>
                  0 <= r.counter && AfterReservations(free, r.counter) == free - r.counter)
    decreases |events|
  {
    if events == [] {
      RaisesBound(s.inFlight);
      SumMapNonNegative(s.reservations);
      if forall i :: 0 <= i < |s.inFlight| ==> s.inFlight[i] <= 0 {
        SumSeqNotPositive(s.inFlight);
        AfterReservationsExact(free, s.counter);
      }
    } else {
      CapacityKept(free, s, events[0]);
      NeverOverCapacity(free, Apply(free, s, events[0]), events[1..]);
    }
  }

  // ------------------------------------------------------------- exactly when capacity is safe

  /** Each job with the most it can come to hold: its reservation, or a granted check of its own. */
  function Ceiling(reservations: map<Job, int>, tickets: seq<Ticket>): map<Job, int>
    decreases |tickets|
  {
    if tickets == [] then reservations
    else
      var m, t := Ceiling(reservations, tickets[..|tickets| - 1]), tickets[|tickets| - 1];
      m[t.job := Max(Get(m, t.job), t.need)]
  }

  /** The most the reservations can come to without another check. */
  ghost function Worst(s: State): int {
    SumMap(Ceiling(s.reservations, s.tickets))
  }

  ghost predicate Positive(s: State) {
    forall j :: j in s.reservations ==> s.reservations[j] >= 0
  }

  /** The ceiling of a job is reached by its reservation or one of its tickets, and bounds them all. */
  lemma {:induction false} CeilingIs(reservations: map<Job, int>, tickets: seq<Ticket>, job: Job)
    ensures var c := Get(Ceiling(reservations, tickets), job);
            && Get(reservations, job) <= c
            && (forall i :: 0 <= i < |tickets| && tickets[i].job == job ==> tickets[i].need <= c)
            && (c == Get(reservations, job) || exists i :: 0 <= i < |tickets| && tickets[i].job == job && tickets[i].need == c)
    decreases |tickets|
  {
    if tickets != [] {
      var front, t := tickets[..|tickets| - 1], tickets[|tickets| - 1];
      CeilingIs(reservations, front, job);
      var c := Get(Ceiling(reservations, front), job);
      if c != Get(reservations, job) {
        var i :| 0 <= i < |front| && front[i].job == job && front[i].need == c;
        assert tickets[i] == front[i];
      }
      assert forall i :: 0 <= i < |front| ==> tickets[i] == front[i];
    }
  }

  lemma CeilingPositive(s: State)
    requires Positive(s)
    ensures forall j :: j in Ceiling(s.reservations, s.tickets) ==> Ceiling(s.reservations, s.tickets)[j] >= 0
  {
    var c := Ceiling(s.reservations, s.tickets);
    forall j | j in c ensures c[j] >= 0 {
      CeilingIs(s.reservations, s.tickets, j);
    }
  }

  /** Fewer or smaller ways to hold space cannot make the worst case worse. */
  lemma WorstLeq(a: State, b: State)
    requires Positive(b)
    requires forall j :: j in a.reservations ==> a.reservations[j] <= Get(Ceiling(b.reservations, b.tickets), j)
    requires forall i :: 0 <= i < |a.tickets| ==>
               a.tickets[i].need <= Get(Ceiling(b.reservations, b.tickets), a.tickets[i].job)
    ensures Worst(a) <= Worst(b)
  {
    var x, y := Ceiling(a.reservations, a.tickets), Ceiling(b.reservations, b.tickets);
    CeilingPositive(b);
    forall j | j in x ensures x[j] <= Get(y, j) {
      CeilingIs(a.reservations, a.tickets, j);
    }
    SumMapLeq(x, y);
  }

  lemma ReservedWithinWorst(s: State)
    requires Positive(s)
    ensures 0 <= SumMap(s.reservations) <= Worst(s)
  {
    CeilingPositive(s);
    forall j | j in s.reservations ensures s.reservations[j] <= Get(Ceiling(s.reservations, s.tickets), j) {
      CeilingIs(s.reservations, s.tickets, j);
    }
    SumMapLeq(s.reservations, Ceiling(s.reservations, s.tickets));
    SumMapNonNegative(s.reservations);
  }

  /** No step but a check raises the worst case. */
  lemma WorstFalls(free: int, s: State, e: Event)
    requires 0 <= free < TWO_TO64 && Enabled(s, e) && !e.Check? && Positive(s)
    ensures Positive(Apply(free, s, e)) && Worst(Apply(free, s, e)) <= Worst(s)
  {
    var s' := Apply(free, s, e);
    var c := Ceiling(s.reservations, s.tickets);
    forall j | j in s'.reservations ensures s'.reservations[j] <= Get(c, j) {
      CeilingIs(s.reservations, s.tickets, j);
    }
    forall i | 0 <= i < |s'.tickets| ensures s'.tickets[i].need <= Get(c, s'.tickets[i].job) {
      CeilingIs(s.reservations, s.tickets, s'.tickets[i].job);
      assert s'.tickets[i] in s.tickets;
    }
    WorstLeq(s', s);
  }

  predicate NoChecks(events: seq<Event>) {
    forall i :: 0 <= i < |events| ==> !events[i].Check?
  }

  /** Whatever granted checks claim and jobs release from here on, the reservations stay within. */
  ghost predicate StaysWithin(free: int, s: State)
    requires 0 <= free < TWO_TO64
  {
    forall events :: NoChecks(events) ==> SumMap(Run(free, s, events).1.reservations) <= free
  }

  lemma {:induction false} WorstBounds(free: int, s: State, events: seq<Event>)
    requires 0 <= free < TWO_TO64 && Positive(s) && NoChecks(events)
    ensures SumMap(Run(free, s, events).1.reservations) <= Worst(s)
    decreases |events|
  {
    hide Worst, Positive, Apply;
    if events == [] || !Enabled(s, events[0]) {
      ReservedWithinWorst(s);
    } else {
      WorstFalls(free, s, events[0]);
      WorstBounds(free, Apply(free, s, events[0]), events[1..]);
    }
  }

  /** The ticket with the most for its job. */
  lemma GreatestTicket(s: State) returns (i: nat)
    requires exists k :: 0 <= k < |s.tickets| && s.tickets[k].need > Get(s.reservations, s.tickets[k].job)
    ensures i < |s.tickets| && s.tickets[i].need > Get(s.reservations, s.tickets[i].job)
    ensures s.tickets[i].need == Get(Ceiling(s.reservations, s.tickets), s.tickets[i].job)
  {
    var k :| 0 <= k < |s.tickets| && s.tickets[k].need > Get(s.reservations, s.tickets[k].job);
    CeilingIs(s.reservations, s.tickets, s.tickets[k].job);
    i :| i < |s.tickets| && s.tickets[i].job == s.tickets[k].job
         && s.tickets[i].need == Get(Ceiling(s.reservations, s.tickets), s.tickets[k].job);
  }

  /** Claiming it leaves the worst case what it was. */
  lemma GreatestClaimKeeps(free: int, s: State, i: nat)
    requires 0 <= free < TWO_TO64 && Positive(s) && i < |s.tickets|
    requires s.tickets[i].need == Get(Ceiling(s.reservations, s.tickets), s.tickets[i].job)
    ensures Worst(Apply(free, s, Claim(i))) == Worst(s)
  {
    var s', t := Apply(free, s, Claim(i)), s.tickets[i];
    WorstFalls(free, s, Claim(i));
    var c' := Ceiling(s'.reservations, s'.tickets);
    forall j | j in s.reservations ensures s.reservations[j] <= Get(c', j) {
      CeilingIs(s'.reservations, s'.tickets, j);
      CeilingIs(s.reservations, s.tickets, j);
    }
    forall k | 0 <= k < |s.tickets| ensures s.tickets[k].need <= Get(c', s.tickets[k].job) {
      CeilingIs(s'.reservations, s'.tickets, s.tickets[k].job);
      CeilingIs(s.reservations, s.tickets, s.tickets[k].job);
      if k != i {
        var at := if k < i then k else k - 1;
        assert s'.tickets[at] == s.tickets[k];
      }
    }
    WorstLeq(s, s');
  }

  lemma NothingMoreToClaim(s: State)
    requires Positive(s)
    requires forall k :: 0 <= k < |s.tickets| ==> s.tickets[k].need <= Get(s.reservations, s.tickets[k].job)
    ensures SumMap(s.reservations) == Worst(s)
  {
    var c := Ceiling(s.reservations, s.tickets);
    forall j | j in c ensures c[j] <= Get(s.reservations, j) {
      CeilingIs(s.reservations, s.tickets, j);
    }
    SumMapLeq(c, s.reservations);
    ReservedWithinWorst(s);
  }

  /** Claims alone bring the reservations to the worst case. */
  lemma {:induction false} WorstIsReached(free: int, s: State) returns (events: seq<Event>)
    requires 0 <= free < TWO_TO64 && Positive(s)
    ensures NoChecks(events) && SumMap(Run(free, s, events).1.reservations) == Worst(s)
    decreases |s.tickets|
  {
    hide Worst, Run;
    if exists k :: 0 <= k < |s.tickets| && s.tickets[k].need > Get(s.reservations, s.tickets[k].job) {
      var i := GreatestTicket(s);
      GreatestClaimKeeps(free, s, i);
      WorstFalls(free, s, Claim(i));
      var rest := WorstIsReached(free, Apply(free, s, Claim(i)));
      RunStep(free, s, Claim(i), rest);
      events := [Claim(i)] + rest;
    } else {
      NothingMoreToClaim(s);
      RunNothing(free, s);
      events := [];
    }
  }

  /** Without another check, the reservations stay within capacity exactly when the worst case does. */
  lemma StaysWithinExactly(free: int, s: State)
    requires 0 <= free < TWO_TO64 && Positive(s)
    ensures StaysWithin(free, s) <==> Worst(s) <= free
  {
    hide Worst, Run, Positive;
    var events := WorstIsReached(free, s);
    if Worst(s) <= free {
      forall events | NoChecks(events) ensures SumMap(Run(free, s, events).1.reservations) <= free {
        WorstBounds(free, s, events);
      }
    }
  }

  predicate Fresh(s: State, job: Job) {
    job !in s.reservations && forall i :: 0 <= i < |s.tickets| ==> s.tickets[i].job != job
  }

  lemma GrantedIs(free: int, s: State, job: Job, need: nat)
    requires 0 <= free < TWO_TO64
    ensures var s' := Apply(free, s, Check(job, need));
            if AfterReservations(free, s.counter) < need then s' == s
            else s' == s.(tickets := s.tickets + [Ticket(job, need)])
  {
  }

  /** A granted check raises the worst case by at most its need, and by just that for a fresh job. */
  lemma GrantRaises(s: State, job: Job, need: nat)
    requires Positive(s)
    ensures var s' := s.(tickets := s.tickets + [Ticket(job, need)]);
            && Worst(s) <= Worst(s') <= Worst(s) + need
            && (Fresh(s, job) ==> Worst(s') == Worst(s) + need)
  {
    var tickets := s.tickets + [Ticket(job, need)];
    assert tickets[..|tickets| - 1] == s.tickets;
    var c := Ceiling(s.reservations, s.tickets);
    CeilingIs(s.reservations, s.tickets, job);
    CeilingPositive(s);
    SumMapPut(c, job, Max(Get(c, job), need));
  }

  /** Every check of this job that is granted here leaves a state that stays within capacity. */
  ghost predicate ChecksAreSafe(free: int, s: State, job: Job)
    requires 0 <= free < TWO_TO64
  {
    forall need: nat :: need <= AfterReservations(free, s.counter) ==>
      StaysWithin(free, Apply(free, s, Check(job, need)))
  }

  /**
   A check of a job that holds nothing yet is safe, whatever it asks for, exactly when the counter it
   reads already counts the worst case of what was granted before.
   */
  lemma CheckSafeExactly(free: int, s: State, job: Job)
    requires 0 <= s.counter <= free < TWO_TO63 && Positive(s) && Fresh(s, job)
    ensures ChecksAreSafe(free, s, job) <==> Worst(s) <= s.counter
  {
    hide Worst, StaysWithin, Apply, Positive, Fresh;
    AfterReservationsExact(free, s.counter);
    forall need: nat | need <= AfterReservations(free, s.counter)
      ensures StaysWithin(free, Apply(free, s, Check(job, need))) <==> Worst(s) + need <= free
    {
      GrantedIs(free, s, job, need);
      GrantRaises(s, job, need);
      GrantPositive(s, job, need);
      StaysWithinExactly(free, Apply(free, s, Check(job, need)));
    }
    if ChecksAreSafe(free, s, job) {
      var most: nat := free - s.counter;
      assert StaysWithin(free, Apply(free, s, Check(job, most)));
    }
  }

  lemma GrantPositive(s: State, job: Job, need: nat)
    requires Positive(s)
    ensures Positive(s.(tickets := s.tickets + [Ticket(job, need)]))
  {
  }

  /** A run in which the counter counts the worst case whenever a check reads it. */
  ghost predicate CarefulRun(free: int, s: State, events: seq<Event>)
    requires 0 <= free < TWO_TO64
    decreases |events|
  {
    events == [] ||
    (&& Enabled(s, events[0]) && (events[0].Check? ==> Worst(s) <= s.counter)
     && CarefulRun(free, Apply(free, s, events[0]), events[1..]))
  }

  lemma CarefulCheck(free: int, s: State, job: Job, need: nat)
    requires 0 <= free < TWO_TO63 && Positive(s) && Worst(s) <= free && Worst(s) <= s.counter
    ensures var s' := Apply(free, s, Check(job, need)); Positive(s') && Worst(s') <= free
  {
    hide Worst, Apply, Positive;
    ReservedWithinWorst(s);
    GrantedIs(free, s, job, need);
    GrantRaises(s, job, need);
    GrantPositive(s, job, need);
    if s.counter < TWO_TO63 {
      AfterReservationsExact(free, s.counter);
    }
  }

  /** In a careful run the reservations never exceed the capacity, however its pairs and releases overlap. */
  lemma {:induction false} CarefulRunsStayWithin(free: int, s: State, events: seq<Event>)
    requires 0 <= free < TWO_TO63 && Positive(s) && Worst(s) <= free && CarefulRun(free, s, events)
    ensures var r := Run(free, s, events).1; Positive(r) && SumMap(r.reservations) <= Worst(r) <= free
    decreases |events|
  {
    hide Worst, Apply, Positive;
    if events == [] {
      ReservedWithinWorst(s);
    } else {
      var e := events[0];
      if e.Check? {
        CarefulCheck(free, s, e.job, e.need);
      } else {
        WorstFalls(free, s, e);
      }
      CarefulRunsStayWithin(free, Apply(free, s, e), events[1..]);
    }
  }

  /** Pairs that do not overlap are one way to be careful. */
  lemma {:induction false} SerialIsCareful(free: int, s: State, events: seq<Event>)
    requires 0 <= free < TWO_TO63 && Reconciled(s) && SerialRun(free, s, events)
    ensures CarefulRun(free, s, events)
    decreases |events|
  {
    hide Apply;
    if events != [] {
      ReconciledKept(free, s, events[0]);
      if events[0].Check? {
        SumSeqNotPositive(s.inFlight);
        assert Worst(s) == SumMap(s.reservations);
      }
      SerialIsCareful(free, Apply(free, s, events[0]), events[1..]);
    }
  }

  /**
   An agent that starts with nothing reserved and does not overlap its check-then-reserve pairs is
   careful all along, so its reservations never exceed the capacity, nor does the counter.
   */
  lemma RunsStayWithinCapacity(free: int, events: seq<Event>)
    requires 0 <= free < TWO_TO63 && SerialRun(free, EMPTY, events)
    ensures CarefulRun(free, EMPTY, events)
    ensures var r := Run(free, EMPTY, events).1;
            && SumMap(r.reservations) <= Worst(r) <= free && r.counter <= free
            && (r.inFlight == [] ==> r.counter == SumMap(r.reservations))
  {
    hide Run, SerialRun, CarefulRun;
    assert SumMap<Job>(map[]) == 0;
    SerialIsCareful(free, EMPTY, events);
    CarefulRunsStayWithin(free, EMPTY, events);
    NeverOverCapacity(free, EMPTY, events);
  }

  /**
   Nothing ties a check to its reserve: for every capacity above zero, two overlapping pairs take
   twice of it. This is why the theorem above needs pairs that do not overlap.
   */
  lemma OverlappingChecksOvercommit(free: int, a: Job, b: Job)
    requires 0 < free < TWO_TO63 && a != b
    ensures var r := Run(free, EMPTY, [Check(a, free), Check(b, free), Claim(0), Claim(0), Add(0), Add(0)]);
            r.0 && SumMap(r.1.reservations) == 2 * free > free && r.1.counter == 2 * free
  {
    hide Run, SumMap;
    var s1 := Apply(free, EMPTY, Check(a, free));
    var s2 := Apply(free, s1, Check(b, free));
    assert s2.tickets == [Ticket(a, free), Ticket(b, free)];
    var s3 := Apply(free, s2, Claim(0));
    assert s3.tickets == [Ticket(b, free)];
    var s4 := Apply(free, s3, Claim(0));
    assert s4.tickets == [] && s4.inFlight == [free, free];
    SumOfTwo(a, free, b, free);
    var s5 := Apply(free, s4, Add(0));
    assert s5.inFlight == [free];
    var s6 := Apply(free, s5, Add(0));
    RunNothing(free, s6);
    RunStep(free, s5, Add(0), []);
    RunStep(free, s4, Add(0), [Add(0)]);
    RunStep(free, s3, Claim(0), [Add(0), Add(0)]);
    RunStep(free, s2, Claim(0), [Claim(0), Add(0), Add(0)]);
    RunStep(free, s1, Check(b, free), [Claim(0), Claim(0), Add(0), Add(0)]);
    RunStep(free, EMPTY, Check(a, free), [Check(b, free), Claim(0), Claim(0), Add(0), Add(0)]);
    ListOfSix(Check(a, free), Check(b, free), Claim(0), Claim(0), Add(0), Add(0));
  }

  /**
   The other half of what the theorem asks: with one check at a time, but made while an earlier claim
   is not yet added to the counter, twice of every capacity is taken as well.
   */
  lemma ChecksInFlightOvercommit(free: int, a: Job, b: Job)
    requires 0 < free < TWO_TO63 && a != b
    ensures var r := Run(free, EMPTY, [Check(a, free), Claim(0), Check(b, free), Claim(0), Add(0), Add(0)]);
            r.0 && SumMap(r.1.reservations) == 2 * free > free && r.1.counter == 2 * free
  {
    hide Run, SumMap;
    var s1 := Apply(free, EMPTY, Check(a, free));
    assert s1.tickets == [Ticket(a, free)];
    var s2 := Apply(free, s1, Claim(0));
    assert s2.tickets == [] && s2.inFlight == [free] && s2.counter == 0;
    var s3 := Apply(free, s2, Check(b, free));
    assert s3.tickets == [Ticket(b, free)];
    var s4 := Apply(free, s3, Claim(0));
    assert s4.tickets == [] && s4.inFlight == [free, free];
    SumOfTwo(a, free, b, free);
    var s5 := Apply(free, s4, Add(0));
    assert s5.inFlight == [free];
    var s6 := Apply(free, s5, Add(0));
    RunNothing(free, s6);
    RunStep(free, s5, Add(0), []);
    RunStep(free, s4, Add(0), [Add(0)]);
    RunStep(free, s3, Claim(0), [Add(0), Add(0)]);
    RunStep(free, s2, Check(b, free), [Claim(0), Add(0), Add(0)]);
    RunStep(free, s1, Claim(0), [Check(b, free), Claim(0), Add(0), Add(0)]);
    RunStep(free, EMPTY, Check(a, free), [Claim(0), Check(b, free), Claim(0), Add(0), Add(0)]);
    ListOfSix(Check(a, free), Claim(0), Check(b, free), Claim(0), Add(0), Add(0));
  }

  lemma SumOfTwo(a: Job, x: int, b: Job, y: int)
    requires a != b
    ensures SumMap(map[a := x][b := y]) == x + y
  {
    SumMapPut(map[], a, x);
    SumMapPut(map[a := x], b, y);
  }

  lemma RunNothing(free: int, s: State)
    requires 0 <= free < TWO_TO64
    ensures Run(free, s, []) == (true, s)
  {
  }

  lemma RunStep(free: int, s: State, e: Event, rest: seq<Event>)
    requires 0 <= free < TWO_TO64 && Enabled(s, e)
    ensures Run(free, s, [e] + rest) == Run(free, Apply(free, s, e), rest)
  {
    assert ([e] + rest)[1..] == rest;
  }

  lemma ListOfSix<T>(a: T, b: T, c: T, d: T, e: T, f: T)
    ensures [a] + [b, c, d, e, f] == [a, b, c, d, e, f]
    ensures [b] + [c, d, e, f] == [b, c, d, e, f]
    ensures [c] + [d, e, f] == [c, d, e, f]
    ensures [d] + [e, f] == [d, e, f]
    ensures [e] + [f] == [e, f]
    ensures [f] + [] == [f]
  {
  }
}
