// The sleeping barber: one barber thread, any number of customer threads, and
// three semaphores, as interleavings of the threads' atomic steps.
module Barber {
  import opened Options

  const UINT_MAX: nat := 0xFFFF_FFFF

  // Unsigned increment and decrement wrap around.
  function Inc(n: nat): nat {
    if n == UINT_MAX then 0 else n + 1
  }

  function Dec(n: nat): nat {
    if n == 0 then UINT_MAX else n - 1
  }

  // The barber: sem_wait(&cussem); sem_wait(&seasem); freeseats++ (a load and a
  // store); sem_post(&barsem); sem_post(&seasem); and again.
  datatype BarberPc =
    | WaitCustomer | WaitSeat | LoadSeats | StoreSeats(seen: nat) | PostBarber | PostSeat

  // A customer: sem_wait(&seasem); the test; then freeseats-- (a load and a
  // store), sem_post(&cussem), sem_post(&seasem), sem_wait(&barsem); or else
  // just sem_post(&seasem).
  datatype CustomerPc =
    | Arrive | Test | Load | Store(seen: nat) | PostCustomer | Release | WaitBarber | Served
    | Refuse | Gone

  datatype State = State(
    barsem: nat, cussem: nat, seasem: nat, freeseats: nat,
    barber: BarberPc, customers: seq<CustomerPc>,
    posts: nat)   // how often the barber has posted barsem

  function Initial(customers: nat, seats: nat): State {
    State(0, 0, 1, seats, WaitCustomer, seq(customers, _ => Arrive), 0)
  }

  // The barber's next step; none if it is blocked on a semaphore.
  function BarberStep(s: State): Option<State> {
    match s.barber
    case WaitCustomer => if s.cussem > 0 then Some(s.(cussem := s.cussem - 1, barber := WaitSeat)) else None
    case WaitSeat => if s.seasem > 0 then Some(s.(seasem := s.seasem - 1, barber := LoadSeats)) else None
    case LoadSeats => Some(s.(barber := StoreSeats(s.freeseats)))
    case StoreSeats(seen) => Some(s.(freeseats := Inc(seen), barber := PostBarber))
    case PostBarber => Some(s.(barsem := s.barsem + 1, posts := s.posts + 1, barber := PostSeat))
    case PostSeat => Some(s.(seasem := s.seasem + 1, barber := WaitCustomer))
  }

  // The next step of customer i; none if it is blocked or has left.
  function CustomerStep(s: State, i: nat): Option<State>
    requires i < |s.customers|
  {
    match s.customers[i]
    case Arrive => if s.seasem > 0 then Some(Move(s, i, Test).(seasem := s.seasem - 1)) else None
    case Test => Some(Move(s, i, if s.freeseats > 0 then Load else Refuse))
    case Load => Some(Move(s, i, Store(s.freeseats)))
    case Store(seen) => Some(Move(s, i, PostCustomer).(freeseats := Dec(seen)))
    case PostCustomer => Some(Move(s, i, Release).(cussem := s.cussem + 1))
    case Release => Some(Move(s, i, WaitBarber).(seasem := s.seasem + 1))
    case WaitBarber => if s.barsem > 0 then Some(Move(s, i, Served).(barsem := s.barsem - 1)) else None
    case Refuse => Some(Move(s, i, Gone).(seasem := s.seasem + 1))
    case Served => None
    case Gone => None
  }

  function Move(s: State, i: nat, pc: CustomerPc): State
    requires i < |s.customers|
  {
    s.(customers := s.customers[i := pc])
  }

  predicate CustomerCan(s: State, i: nat) {
    i < |s.customers| && CustomerStep(s, i).Some?
  }

  ghost predicate Next(s: State, s': State) {
    || BarberStep(s) == Some(s')
    || exists i: nat :: CustomerCan(s, i) && CustomerStep(s, i) == Some(s')
  }

  // No thread can take a step.
  ghost predicate Stuck(s: State) {
    BarberStep(s).None? && forall i: nat :: !CustomerCan(s, i)
  }

  // ---------- counting customers ----------

  function Sum(cs: seq<CustomerPc>, f: CustomerPc -> nat): nat {
    if cs == [] then 0 else f(cs[0]) + Sum(cs[1..], f)
  }

  lemma {:induction false} SumUpdate(cs: seq<CustomerPc>, i: nat, pc: CustomerPc, f: CustomerPc -> nat)
    requires i < |cs|
    ensures Sum(cs[i := pc], f) == Sum(cs, f) - f(cs[i]) + f(pc)
    ensures Sum(cs, f) >= f(cs[i])
  {
    if i == 0 {
      assert cs[i := pc][1..] == cs[1..];
    } else {
      assert cs[i := pc][1..] == cs[1..][i - 1 := pc];
      SumUpdate(cs[1..], i - 1, pc, f);
    }
  }

  lemma {:induction false} SumTwo(cs: seq<CustomerPc>, i: nat, j: nat, f: CustomerPc -> nat)
    requires i < j < |cs|
    ensures Sum(cs, f) >= f(cs[i]) + f(cs[j])
  {
    if i == 0 {
      SumUpdate(cs[1..], j - 1, cs[j], f);
    } else {
      SumTwo(cs[1..], i - 1, j - 1, f);
    }
  }

  lemma {:induction false} SumFound(cs: seq<CustomerPc>, f: CustomerPc -> nat) returns (i: nat)
    requires Sum(cs, f) > 0
    ensures i < |cs| && f(cs[i]) > 0
  {
    if f(cs[0]) > 0 {
      i := 0;
    } else {
      i := SumFound(cs[1..], f);
      i := i + 1;
    }
  }

  lemma {:induction false} SumZero(cs: seq<CustomerPc>, f: CustomerPc -> nat)
    requires forall i :: 0 <= i < |cs| ==> f(cs[i]) == 0
    ensures Sum(cs, f) == 0
  {
    if cs != [] {
      assert forall i :: 0 <= i < |cs[1..]| ==> cs[1..][i] == cs[i + 1];
      SumZero(cs[1..], f);
    }
  }

  lemma {:induction false} SumScaled(n: nat, f: CustomerPc -> nat)
    ensures Sum(seq(n, _ => Arrive), f) == n * f(Arrive)
  {
    if n > 0 {
      assert seq(n, _ => Arrive)[1..] == seq(n - 1, _ => Arrive);
      SumScaled(n - 1, f);
    }
  }

  // Between wait and post of seasem.
  function Inside(pc: CustomerPc): nat {
    if pc.Test? || pc.Load? || pc.Store? || pc.PostCustomer? || pc.Release? || pc.Refuse? then 1 else 0
  }

  // Has taken a seat but not told the barber yet.
  function Silent(pc: CustomerPc): nat {
    if pc.PostCustomer? then 1 else 0
  }

  // Has been given a seat.
  function Admitted(pc: CustomerPc): nat {
    if pc.PostCustomer? || pc.Release? || pc.WaitBarber? || pc.Served? then 1 else 0
  }

  function IsServed(pc: CustomerPc): nat {
    if pc.Served? then 1 else 0
  }

  function TurnedAway(pc: CustomerPc): nat {
    if pc.Refuse? || pc.Gone? then 1 else 0
  }

  function BarberInside(pc: BarberPc): nat {
    if pc.LoadSeats? || pc.StoreSeats? || pc.PostBarber? || pc.PostSeat? then 1 else 0
  }

  // Has called a customer but not freed the seat yet.
  function Calling(pc: BarberPc): nat {
    if pc.WaitSeat? || pc.LoadSeats? || pc.StoreSeats? then 1 else 0
  }

  function Posting(pc: BarberPc): nat {
    if pc.PostBarber? then 1 else 0
  }

  // ---------- safety ----------

  // What a thread inside the critical section knows about freeseats.
  predicate Knows(pc: CustomerPc, freeseats: nat) {
    match pc
    case Load => freeseats > 0
    case Store(seen) => seen == freeseats && freeseats > 0
    case Refuse => freeseats == 0
    case _ => true
  }

  ghost predicate Inv(s: State, n: nat, seats: nat) {
    Counts(s, n, seats) && Views(s, n)
  }

  ghost predicate Counts(s: State, n: nat, seats: nat) {
    |s.customers| == n && seats <= UINT_MAX && SeatCounts(s, seats) && GuestCounts(s, seats)
  }

  ghost predicate SeatCounts(s: State, seats: nat) {
    // one thread at a time between wait and post of seasem
    && s.seasem + Sum(s.customers, Inside) + BarberInside(s.barber) == 1
    // every taken seat is announced, about to be announced, or about to be freed
    && s.freeseats + s.cussem + Sum(s.customers, Silent) + Calling(s.barber) == seats
  }

  ghost predicate GuestCounts(s: State, seats: nat) {
    // every admitted customer is seated, called, or invited
    && Sum(s.customers, Admitted) + s.freeseats == seats + Posting(s.barber) + s.posts
    // every post has served a customer, or is there for one
    && s.posts == s.barsem + Sum(s.customers, IsServed)
    // customers are turned away only when all seats have been given out
    && (Sum(s.customers, TurnedAway) > 0 ==> Sum(s.customers, Admitted) >= seats)
  }

  // What the threads inside the critical section have read is still true.
  ghost predicate Views(s: State, n: nat) {
    && |s.customers| == n
    && (forall i {:trigger s.customers[i]} :: 0 <= i < n ==> Knows(s.customers[i], s.freeseats))
    && (s.barber.StoreSeats? ==> s.barber.seen == s.freeseats)
  }

  lemma InitInv(n: nat, seats: nat)
    requires seats <= UINT_MAX
    ensures Inv(Initial(n, seats), n, seats)
  {
    SumScaled(n, Inside);
    SumScaled(n, Silent);
    SumScaled(n, Admitted);
    SumScaled(n, IsServed);
    SumScaled(n, TurnedAway);
  }

  // A thread inside keeps all others out.
  lemma OnlyOneInside(s: State, n: nat, seats: nat, i: nat, j: nat)
    requires Inv(s, n, seats) && i < n && j < n && i != j && Inside(s.customers[i]) == 1
    ensures Inside(s.customers[j]) == 0
  {
    if i < j { SumTwo(s.customers, i, j, Inside); } else { SumTwo(s.customers, j, i, Inside); }
  }

  lemma NoneInside(s: State, n: nat, seats: nat, j: nat)
    requires Inv(s, n, seats) && j < n && BarberInside(s.barber) == 1
    ensures Inside(s.customers[j]) == 0
  {
    SumUpdate(s.customers, j, s.customers[j], Inside);
  }

  lemma BarberInv(s: State, s': State, n: nat, seats: nat)
    requires Inv(s, n, seats) && BarberStep(s) == Some(s')
    ensures Inv(s', n, seats)
  {
    if s.barber.StoreSeats? {
      forall j | 0 <= j < n
        ensures Knows(s.customers[j], s'.freeseats)
      {
        NoneInside(s, n, seats, j);
      }
    }
  }

  lemma CustomerKnows(s: State, s': State, n: nat, seats: nat, i: nat, j: nat)
    requires Inv(s, n, seats) && i < n && j < n && CustomerStep(s, i) == Some(s')
    ensures Knows(s'.customers[j], s'.freeseats)
    ensures s'.barber == s.barber && (s.barber.StoreSeats? ==> s'.freeseats == s.freeseats)
  {
    if s.customers[i].Store? {
      if j != i { OnlyOneInside(s, n, seats, i, j); }
      if s.barber.StoreSeats? { NoneInside(s, n, seats, i); }
    }
  }

  // What one step of customer i does to a sum over all customers.
  lemma CustomerSum(s: State, s': State, i: nat, f: CustomerPc -> nat)
    requires i < |s.customers| && CustomerStep(s, i) == Some(s')
    ensures i < |s'.customers|
    ensures Sum(s'.customers, f) == Sum(s.customers, f) - f(s.customers[i]) + f(s'.customers[i])
  {
    assert s'.customers == s.customers[i := s'.customers[i]];
    SumUpdate(s.customers, i, s'.customers[i], f);
  }

  lemma CustomerSeats(s: State, s': State, seats: nat, i: nat)
    requires SeatCounts(s, seats) && i < |s.customers|
    requires Knows(s.customers[i], s.freeseats) && CustomerStep(s, i) == Some(s')
    ensures SeatCounts(s', seats)
  {
    CustomerSum(s, s', i, Inside);
    CustomerSum(s, s', i, Silent);
  }

  lemma CustomerAdmission(s: State, s': State, seats: nat, i: nat)
    requires GuestCounts(s, seats) && i < |s.customers| && s.freeseats <= seats
    requires Knows(s.customers[i], s.freeseats) && CustomerStep(s, i) == Some(s')
    ensures Sum(s'.customers, Admitted) + s'.freeseats == seats + Posting(s'.barber) + s'.posts
    ensures Sum(s'.customers, Admitted) >= Sum(s.customers, Admitted)
  {
    CustomerSum(s, s', i, Admitted);
  }

  lemma CustomerGuests(s: State, s': State, seats: nat, i: nat)
    requires GuestCounts(s, seats) && i < |s.customers| && s.freeseats <= seats
    requires Knows(s.customers[i], s.freeseats) && CustomerStep(s, i) == Some(s')
    ensures GuestCounts(s', seats)
  {
    CustomerAdmission(s, s', seats, i);
    assert s'.posts == s'.barsem + Sum(s'.customers, IsServed) by {
      CustomerSum(s, s', i, IsServed);
    }
    CustomerSum(s, s', i, TurnedAway);
  }

  lemma CustomerInv(s: State, s': State, n: nat, seats: nat, i: nat)
    requires Inv(s, n, seats) && i < n && CustomerStep(s, i) == Some(s')
    ensures Inv(s', n, seats)
  {
    CustomerSeats(s, s', seats, i);
    CustomerGuests(s, s', seats, i);
    CustomerKnows(s, s', n, seats, i, i);
    forall j | 0 <= j < n
      ensures Knows(s'.customers[j], s'.freeseats)
    {
      CustomerKnows(s, s', n, seats, i, j);
    }
  }

  // ---------- runs ----------

  ghost predicate IsRun(run: seq<State>, n: nat, seats: nat) {
    && run != [] && run[0] == Initial(n, seats)
    && forall k {:trigger StepAt(run, k)} :: 0 < k < |run| ==> StepAt(run, k)
  }

  ghost predicate StepAt(run: seq<State>, k: nat)
    requires 0 < k < |run|
  {
    Next(run[k - 1], run[k])
  }

  // What is left to do, in steps.
  function ToDo(pc: CustomerPc): nat {
    match pc
    case Arrive => 13
    case Test => 12
    case Load => 11
    case Store(_) => 10
    case PostCustomer => 9
    case Release => 2
    case WaitBarber => 1
    case Served => 0
    case Refuse => 11
    case Gone => 10
  }

  function BarberToDo(pc: BarberPc): nat {
    match pc
    case WaitCustomer => 0
    case WaitSeat => 5
    case LoadSeats => 4
    case StoreSeats(_) => 3
    case PostBarber => 2
    case PostSeat => 1
  }

  function StepsLeft(s: State): nat {
    Sum(s.customers, ToDo) + 6 * s.cussem + BarberToDo(s.barber)
  }

  lemma CustomerDoesOne(s: State, s': State, i: nat)
    requires i < |s.customers| && CustomerStep(s, i) == Some(s')
    ensures i < |s'.customers| && s'.barber == s.barber
    ensures ToDo(s'.customers[i]) + 6 * s'.cussem + 1 == ToDo(s.customers[i]) + 6 * s.cussem
  {
  }

  lemma CustomerStepCounts(s: State, s': State, i: nat)
    requires i < |s.customers| && CustomerStep(s, i) == Some(s')
    ensures StepsLeft(s') == StepsLeft(s) - 1
  {
    CustomerDoesOne(s, s', i);
    CustomerSum(s, s', i, ToDo);
  }

  // Every step of every thread is one step less to do.
  lemma StepCounts(s: State, s': State)
    requires Next(s, s')
    ensures StepsLeft(s') == StepsLeft(s) - 1
  {
    if BarberStep(s) == Some(s') {
      assert s'.customers == s.customers;
    } else {
      var i: nat :| CustomerCan(s, i) && CustomerStep(s, i) == Some(s');
      CustomerStepCounts(s, s', i);
    }
  }

  // In every reachable state the invariant holds, and the number of steps taken
  // is known.
  lemma {:induction false} RunInv(run: seq<State>, n: nat, seats: nat)
    requires IsRun(run, n, seats) && seats <= UINT_MAX
    ensures var s := run[|run| - 1]; Inv(s, n, seats) && StepsLeft(s) + |run| - 1 == 13 * n
  {
    var last := |run| - 1;
    if last == 0 {
      InitInv(n, seats);
      SumScaled(n, ToDo);
    } else {
      var s, s' := run[last - 1], run[last];
      forall k | 0 < k < last
        ensures StepAt(run[..last], k)
      {
        assert StepAt(run, k);
      }
      assert StepAt(run, last);
      RunInv(run[..last], n, seats);
      StepCounts(s, s');
      if BarberStep(s) == Some(s') {
        BarberInv(s, s', n, seats);
      } else {
        var i: nat :| CustomerCan(s, i) && CustomerStep(s, i) == Some(s');
        CustomerInv(s, s', n, seats, i);
      }
    }
  }

  predicate Finished(pc: CustomerPc) {
    pc.Served? || pc.Gone?
  }

  // Who has to wait, and for what: for the thread that is inside, for a
  // customer to announce himself, or for the barber's next post.
  lemma BlockedIff(s: State, n: nat, seats: nat, i: nat)
    requires Inv(s, n, seats) && i < n
    ensures var pc, inside := s.customers[i], Sum(s.customers, Inside);
      && (BarberStep(s).None? <==>
            (s.barber.WaitCustomer? && s.cussem == 0) || (s.barber.WaitSeat? && inside == 1))
      && (!CustomerCan(s, i) <==>
            || Finished(pc) || (pc.Arrive? && inside + BarberInside(s.barber) == 1)
            || (pc.WaitBarber? && s.posts == Sum(s.customers, IsServed)))
  {
  }

  // As long as some customer has not left, some thread can take a step.
  lemma NoDeadlock(s: State, n: nat, seats: nat, c: nat)
    requires Inv(s, n, seats) && c < n && !Finished(s.customers[c])
    ensures !Stuck(s)
  {
    if Sum(s.customers, Inside) > 0 {
      var i := SumFound(s.customers, Inside);
      assert CustomerCan(s, i);
    } else if BarberInside(s.barber) == 0 {
      assert s.seasem == 1;
      SumUpdate(s.customers, c, s.customers[c], Inside);
      if s.customers[c].Arrive? {
        assert CustomerCan(s, c);
      } else {
        assert s.customers[c].WaitBarber?;
        if s.barsem > 0 {
          assert CustomerCan(s, c);
        } else {
          AdmittedNotServed(s.customers, c);
          if Sum(s.customers, Silent) > 0 {
            var i := SumFound(s.customers, Silent);
            SumUpdate(s.customers, i, s.customers[i], Inside);
          }
        }
      }
    }
  }

  lemma {:induction false} AdmittedNotServed(cs: seq<CustomerPc>, c: nat)
    requires c < |cs| && cs[c].WaitBarber?
    ensures Sum(cs, Admitted) > Sum(cs, IsServed)
  {
    ServedAdmitted(cs[1..]);
    if c > 0 {
      AdmittedNotServed(cs[1..], c - 1);
    }
  }

  lemma {:induction false} ServedAdmitted(cs: seq<CustomerPc>)
    ensures Sum(cs, Admitted) >= Sum(cs, IsServed)
  {
    if cs != [] { ServedAdmitted(cs[1..]); }
  }

  lemma {:induction false} AllAccounted(cs: seq<CustomerPc>)
    requires forall i :: 0 <= i < |cs| ==> Finished(cs[i])
    ensures Sum(cs, IsServed) + Sum(cs, TurnedAway) == |cs|
    ensures Sum(cs, Admitted) == Sum(cs, IsServed)
    ensures Sum(cs, ToDo) == 10 * Sum(cs, TurnedAway)
    ensures Sum(cs, Inside) == 0 && Sum(cs, Silent) == 0
  {
    if cs != [] {
      assert forall i :: 0 <= i < |cs[1..]| ==> cs[1..][i] == cs[i + 1];
      AllAccounted(cs[1..]);
    }
  }

  // In every reachable state: mutual exclusion, the seat count, no haircut
  // without a seated customer, and whoever leaves or takes a seat has found
  // none, or one, free.
  lemma BarberSafety(run: seq<State>, n: nat, seats: nat)
    requires IsRun(run, n, seats) && seats <= UINT_MAX
    ensures var s := run[|run| - 1];
      && s.seasem + Sum(s.customers, Inside) + BarberInside(s.barber) == 1
      && seats - s.freeseats == s.cussem + Sum(s.customers, Silent) + Calling(s.barber)
      && 0 <= s.freeseats <= seats
      && Sum(s.customers, IsServed) <= s.posts <= Sum(s.customers, Admitted)
      && (Sum(s.customers, TurnedAway) > 0 ==> Sum(s.customers, Admitted) >= seats)
      && |s.customers| == n
      && forall i {:trigger s.customers[i]} :: 0 <= i < n ==>
           && (s.customers[i].Refuse? ==> s.freeseats == 0)
           && (s.customers[i].Load? || s.customers[i].Store? ==> s.freeseats > 0)
  {
    RunInv(run, n, seats);
  }

  // The shop after the last customer has left: every customer has been served
  // or turned away, and at least as many as there are seats have been served
  // if any were turned away; it took 13 steps for each customer served and 3
  // for each one turned away; all seats are free, and the barber sleeps.
  ghost predicate Closed(s: State, n: nat, seats: nat, steps: nat) {
    var served, gone := Sum(s.customers, IsServed), Sum(s.customers, TurnedAway);
    && |s.customers| == n
    && (forall c :: 0 <= c < n ==> Finished(s.customers[c]))
    && s.freeseats == seats && s.cussem == 0 && s.barsem == 0 && s.seasem == 1 && s.barber == WaitCustomer
    && served + gone == n && steps == 13 * served + 3 * gone
    && (gone > 0 ==> served >= seats)
  }

  // Every run is finite, and one that cannot go on has closed the shop.
  lemma EveryoneLeaves(run: seq<State>, n: nat, seats: nat)
    requires IsRun(run, n, seats) && seats <= UINT_MAX
    ensures |run| - 1 <= 13 * n
    ensures Stuck(run[|run| - 1]) ==> Closed(run[|run| - 1], n, seats, |run| - 1)
  {
    RunInv(run, n, seats);
    var s := run[|run| - 1];
    if Stuck(s) {
      forall c | 0 <= c < n
        ensures Finished(s.customers[c])
      {
        if !Finished(s.customers[c]) { NoDeadlock(s, n, seats, c); }
      }
      AllAccounted(s.customers);
    }
  }
}
