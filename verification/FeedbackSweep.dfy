/** One sweep of feedback reads over the twelve joints, and its accounting. */
module FeedbackSweep {
  import opened Arithmetic
  import opened Poses
  import opened SerialFrames

  // Positions a present-feedback reply can carry.
  type Position = x: int | -0x7FFF <= x <= 0x7FFF

  type ReadFailure = s: IoStatus | s != IoOk witness Timeout

  // How one joint's transaction ends.
  datatype ReadResult =
    | RequestFailed
    | ReadFailed(status: ReadFailure)
    | BadReply
    | Reply(position: Position, alarm: bool)

  datatype Sample = Sample(
    raw: Position, hasSample: bool, lastReadOk: bool, okCount: nat, failCount: nat)

  type Samples = s: seq<Sample> | |s| == NUM_JOINTS
    witness seq(NUM_JOINTS, _ => Sample(0, false, false, 0, 0))

  datatype Counters = Counters(
    readSuccess: nat, timeouts: nat, checksumErrors: nat, wrongIds: nat, malformed: nat,
    ioErrors: nat, servoStatusErrors: nat)

  const NO_COUNTS := Counters(0, 0, 0, 0, 0, 0, 0)

  type JointIndex = i: nat | i < NUM_JOINTS

  datatype Bus = Bus(samples: Samples, counters: Counters, readStart: JointIndex)

  type Replies = r: seq<ReadResult> | |r| == NUM_JOINTS
    witness seq(NUM_JOINTS, _ => RequestFailed)

  function RecordSample(s: Sample, r: ReadResult): Sample {
    match r
    case Reply(position, _) => Sample(position, true, true, s.okCount + 1, s.failCount)
    case _ => s.(lastReadOk := false, failCount := s.failCount + 1)
  }

  function RecordError(c: Counters, status: ReadFailure): Counters {
    match status
    case Timeout => c.(timeouts := c.timeouts + 1)
    case ChecksumError => c.(checksumErrors := c.checksumErrors + 1)
    case WrongServoId => c.(wrongIds := c.wrongIds + 1)
    case MalformedFrame => c.(malformed := c.malformed + 1)
    case IoError => c.(ioErrors := c.ioErrors + 1)
  }

  function RecordCount(c: Counters, r: ReadResult): Counters {
    match r
    case RequestFailed => c.(ioErrors := c.ioErrors + 1)
    case ReadFailed(status) => RecordError(c, status)
    case BadReply => c.(malformed := c.malformed + 1)
    case Reply(_, alarm) =>
      c.(readSuccess := c.readSuccess + 1,
         servoStatusErrors := c.servoStatusErrors + if alarm then 1 else 0)
  }

  function Visited(start: nat, offset: nat): JointIndex { (start + offset) % NUM_JOINTS }

  // The bus after one transaction with joint j.
  function Recorded(b: Bus, j: JointIndex, r: ReadResult): Bus {
    b.(samples := b.samples[j := RecordSample(b.samples[j], r)], counters := RecordCount(b.counters, r))
  }

  // After the first n transactions of a sweep.
  function Sweep(b: Bus, replies: Replies, n: nat): (r: Bus)
    requires n <= NUM_JOINTS
    ensures r.readStart == b.readStart
  {
    if n == 0 then b
    else
      Recorded(Sweep(b, replies, n - 1), Visited(b.readStart, n - 1), replies[n - 1])
  }

  function Rotate(start: JointIndex, rotates: bool, stride: nat): JointIndex {
    if rotates then (start + stride) % NUM_JOINTS else start
  }

  function FullSweep(b: Bus, replies: Replies, rotates: bool, stride: nat): Bus {
    Sweep(b, replies, NUM_JOINTS).(readStart := Rotate(b.readStart, rotates, stride))
  }

  class Reader {
    var samples: Samples
    var counters: Counters
    var readStart: JointIndex

    function State(): Bus
      reads this
    {
      Bus(samples, counters, readStart)
    }

    constructor ()
      ensures State() == Bus(seq(NUM_JOINTS, _ => Sample(0, false, false, 0, 0)), NO_COUNTS, 0)
    {
      samples := seq(NUM_JOINTS, _ => Sample(0, false, false, 0, 0));
      counters, readStart := NO_COUNTS, 0;
    }

    method PerformFeedbackSweep(replies: Replies, rotates: bool, stride: nat)
      modifies this
      ensures State() == FullSweep(old(State()), replies, rotates, stride)
    {
      for offset := 0 to NUM_JOINTS
        invariant State() == Sweep(old(State()), replies, offset)
      {
        var index := (readStart + offset) % NUM_JOINTS;
        RecordTransaction(index, replies[offset]);
      }
      if rotates {
        readStart := (readStart + stride) % NUM_JOINTS;
      }
    }

    method RecordTransaction(index: nat, r: ReadResult)
      requires index < NUM_JOINTS
      modifies this
      ensures readStart == old(readStart)
      ensures samples == old(samples)[index := RecordSample(old(samples)[index], r)]
      ensures counters == RecordCount(old(counters), r)
    {
      var sample := samples[index];
      match r {
        case RequestFailed =>
          sample := sample.(lastReadOk := false, failCount := sample.failCount + 1);
          counters := counters.(ioErrors := counters.ioErrors + 1);
        case ReadFailed(status) =>
          sample := sample.(lastReadOk := false, failCount := sample.failCount + 1);
          counters := RecordError(counters, status);
        case BadReply =>
          sample := sample.(lastReadOk := false, failCount := sample.failCount + 1);
          counters := counters.(malformed := counters.malformed + 1);
        case Reply(position, alarm) =>
          sample := Sample(position, true, true, sample.okCount + 1, sample.failCount);
          counters := counters.(readSuccess := counters.readSuccess + 1);
          if alarm {
            counters := counters.(servoStatusErrors := counters.servoStatusErrors + 1);
          }
      }
      samples := samples[index := sample];
    }
  }

  // ------------------------------------------------------------------------------- one sweep

  // The transaction that visits a joint, for a given start.
  function VisitOf(start: JointIndex, joint: JointIndex): (offset: JointIndex)
    ensures Visited(start, offset) == joint
    ensures forall k :: 0 <= k < NUM_JOINTS && Visited(start, k) == joint ==> k == offset
  {
    (joint + NUM_JOINTS - start) % NUM_JOINTS
  }

  // Whatever the start, a sweep visits every joint exactly once.
  lemma {:induction false} SweepVisitsOnce(b: Bus, replies: Replies, n: nat, joint: JointIndex)
    requires n <= NUM_JOINTS
    ensures var offset := VisitOf(b.readStart, joint);
            Sweep(b, replies, n).samples[joint] ==
              if offset < n then RecordSample(b.samples[joint], replies[offset]) else b.samples[joint]
  {
    hide Visited, VisitOf, RecordSample, RecordCount;
    if n > 0 {
      SweepVisitsOnce(b, replies, n - 1, joint);
    }
  }

  // ------------------------------------------------------------------------------- accounting

  function SumOk(s: seq<Sample>): nat { if s == [] then 0 else s[0].okCount + SumOk(s[1..]) }

  function SumFail(s: seq<Sample>): nat { if s == [] then 0 else s[0].failCount + SumFail(s[1..]) }

  function Errors(c: Counters): nat {
    c.timeouts + c.checksumErrors + c.wrongIds + c.malformed + c.ioErrors
  }

  lemma {:induction false} SumsUpdate(s: seq<Sample>, i: nat, x: Sample)
    requires i < |s|
    ensures SumOk(s[i := x]) == SumOk(s) - s[i].okCount + x.okCount
    ensures SumFail(s[i := x]) == SumFail(s) - s[i].failCount + x.failCount
  {
    if i == 0 {
      assert s[0 := x][1..] == s[1..];
    } else {
      assert s[i := x][1..] == s[1..][i - 1 := x];
      SumsUpdate(s[1..], i - 1, x);
    }
  }

  // The ok counts against the successes, and the fail counts against the five error counters.
  predicate Balanced(b: Bus, otherErrors: nat) {
    SumOk(b.samples) == b.counters.readSuccess
    && SumFail(b.samples) + otherErrors == Errors(b.counters)
  }

  lemma RecordBalances(b: Bus, j: JointIndex, r: ReadResult, other: nat)
    requires Balanced(b, other)
    ensures Balanced(Recorded(b, j, r), other)
  {
    hide SumOk, SumFail;
    SumsUpdate(b.samples, j, RecordSample(b.samples[j], r));
  }

  lemma {:induction false} SweepBalances(b: Bus, replies: Replies, n: nat, other: nat)
    requires Balanced(b, other) && n <= NUM_JOINTS
    ensures Balanced(Sweep(b, replies, n), other)
  {
    hide Visited, Balanced, Recorded;
    if n > 0 {
      SweepBalances(b, replies, n - 1, other);
      RecordBalances(Sweep(b, replies, n - 1), Visited(b.readStart, n - 1), replies[n - 1], other);
    }
  }

  // What each counter counts.
  datatype Kind = Successes | Timeouts | ChecksumErrors | WrongIds | MalformedFrames | IoErrors | Alarms

  ghost predicate IsOf(r: ReadResult, kind: Kind) {
    match kind
    case Successes => r.Reply?
    case Timeouts => r == ReadFailed(Timeout)
    case ChecksumErrors => r == ReadFailed(ChecksumError)
    case WrongIds => r == ReadFailed(WrongServoId)
    case MalformedFrames => r == ReadFailed(MalformedFrame) || r == BadReply
    case IoErrors => r == ReadFailed(IoError) || r == RequestFailed
    case Alarms => r.Reply? && r.alarm
  }

  ghost function CounterOf(c: Counters, kind: Kind): nat {
    match kind
    case Successes => c.readSuccess
    case Timeouts => c.timeouts
    case ChecksumErrors => c.checksumErrors
    case WrongIds => c.wrongIds
    case MalformedFrames => c.malformed
    case IoErrors => c.ioErrors
    case Alarms => c.servoStatusErrors
  }

  ghost function CountOf(replies: seq<ReadResult>, kind: Kind): nat {
    if replies == [] then 0
    else CountOf(replies[..|replies| - 1], kind) + if IsOf(replies[|replies| - 1], kind) then 1 else 0
  }

  // A sweep adds to each counter the transactions of its kind.
  lemma {:induction false} SweepCounts(b: Bus, replies: Replies, n: nat, kind: Kind)
    requires n <= NUM_JOINTS
    ensures CounterOf(Sweep(b, replies, n).counters, kind)
         == CounterOf(b.counters, kind) + CountOf(replies[..n], kind)
  {
    hide Visited, RecordSample;
    if n > 0 {
      SweepCounts(b, replies, n - 1, kind);
      assert replies[..n][..n - 1] == replies[..n - 1];
      RecordCounts(Sweep(b, replies, n - 1).counters, replies[n - 1], kind);
    }
  }

  lemma RecordCounts(c: Counters, r: ReadResult, kind: Kind)
    ensures CounterOf(RecordCount(c, r), kind) == CounterOf(c, kind) + if IsOf(r, kind) then 1 else 0
  {
  }

  // ------------------------------------------------------------------------------- rotation

  // The joint that leads sweep k of a run with rotation.
  function Lead(start: JointIndex, stride: nat, k: nat): JointIndex {
    if k == 0 then start else Rotate(Lead(start, stride, k - 1), true, stride)
  }

  // The joint that leads d sweeps after the one led by `lead`.
  function Later(lead: nat, stride: nat, d: nat): nat { (lead + d * stride) % NUM_JOINTS }

  lemma OneMore(d: nat, stride: nat)
    ensures (d + 1) * stride == d * stride + stride
  {
  }

  lemma LaterByOne(lead: nat, stride: nat, d: nat)
    ensures Later(lead, stride, d + 1) == (Later(lead, stride, d) + stride) % NUM_JOINTS
  {
    OneMore(d, stride);
    RemainderOfSum(lead + d * stride, stride, NUM_JOINTS);
  }

  lemma {:induction false} LeadIsStrided(start: JointIndex, stride: nat, k: nat)
    ensures Lead(start, stride, k) == Later(start, stride, k)
  {
    if k > 0 {
      hide Later;
      LeadIsStrided(start, stride, k - 1);
      LaterByOne(start, stride, k - 1);
    }
  }

  lemma LeadLater(start: JointIndex, stride: nat, first: nat, d: nat)
    ensures Lead(start, stride, first + d) == Later(Lead(start, stride, first), stride, d)
  {
    hide Lead;
    LeadIsStrided(start, stride, first);
    LeadIsStrided(start, stride, first + d);
    LaterAdds(start, stride, first, d);
  }

  lemma LaterAdds(lead: nat, stride: nat, first: nat, d: nat)
    ensures Later(lead, stride, first + d) == Later(Later(lead, stride, first), stride, d)
  {
    Distribute(stride, first, d);
    var here := lead + first * stride;
    assert lead + (first + d) * stride == here + d * stride;
    RemainderOfSum(here, d * stride, NUM_JOINTS);
  }

  // Only the stride's remainder matters.
  lemma LaterByRemainder(lead: nat, stride: nat, d: nat)
    ensures Later(lead, stride, d) == Later(lead, stride % NUM_JOINTS, d)
  {
    var q, r := stride / NUM_JOINTS, stride % NUM_JOINTS;
    Distribute(d, NUM_JOINTS * q, r);
    assert d * (NUM_JOINTS * q) == NUM_JOINTS * (d * q);
    var n := lead + d * r;
    Distribute(NUM_JOINTS, n / NUM_JOINTS, d * q);
    QuotientUnique(lead + d * stride, NUM_JOINTS, n / NUM_JOINTS + d * q, n % NUM_JOINTS);
  }

  ghost predicate LeadsOnce(lead: nat, stride: nat, joint: nat) {
    exists d: nat :: d < NUM_JOINTS && Later(lead, stride, d) == joint && OnlyAt(lead, stride, joint, d)
  }

  ghost predicate OnlyAt(lead: nat, stride: nat, joint: nat, d: nat) {
    forall e: nat :: e < NUM_JOINTS && Later(lead, stride, e) == joint ==> e == d
  }

  predicate Coprime(stride: nat) { stride % 2 != 0 && stride % 3 != 0 }

  predicate Unit(r: nat) { r == 1 || r == 5 || r == 7 || r == 11 }

  lemma UnitTimes(r: nat, d: nat)
    requires Unit(r)
    ensures d * r == (if r == 1 then d else if r == 5 then 5 * d else if r == 7 then 7 * d else 11 * d)
  {
  }

  // Modulo twelve every unit is its own inverse.
  lemma UnitHits(lead: nat, r: nat, joint: nat) returns (d: nat)
    requires lead < NUM_JOINTS && joint < NUM_JOINTS && Unit(r)
    ensures d < NUM_JOINTS && Later(lead, r, d) == joint
  {
    var away := joint + NUM_JOINTS - lead;
    var n := if r == 1 then away else if r == 5 then 5 * away else if r == 7 then 7 * away else 11 * away;
    var q := n / NUM_JOINTS;
    d := n % NUM_JOINTS;
    UnitTimes(r, d);
    if r == 1 {
      QuotientUnique(lead + d, NUM_JOINTS, 1 - q, joint);
    } else if r == 5 {
      QuotientUnique(lead + 5 * d, NUM_JOINTS, 1 + 2 * away - 5 * q, joint);
    } else if r == 7 {
      QuotientUnique(lead + 7 * d, NUM_JOINTS, 1 + 4 * away - 7 * q, joint);
    } else {
      QuotientUnique(lead + 11 * d, NUM_JOINTS, 1 + 10 * away - 11 * q, joint);
    }
  }

  lemma LaterAgree(lead: nat, r: nat, d: nat, e: nat) returns (k: int)
    requires Later(lead, r, d) == Later(lead, r, e)
    ensures d * r - e * r == 12 * k
  {
    k := (lead + d * r) / NUM_JOINTS - (lead + e * r) / NUM_JOINTS;
  }

  lemma OnlyZero(r: nat, x: int, k: int)
    requires -12 < x < 12
    requires (r == 1 && x == 12 * k) || (r == 5 && 5 * x == 12 * k)
             || (r == 7 && 7 * x == 12 * k) || (r == 11 && 11 * x == 12 * k)
    ensures x == 0
  {
  }

  lemma UnitHitsOnce(lead: nat, r: nat, d: nat, e: nat)
    requires Unit(r) && d < NUM_JOINTS && e < NUM_JOINTS && Later(lead, r, d) == Later(lead, r, e)
    ensures d == e
  {
    hide Later;
    UnitTimes(r, d);
    UnitTimes(r, e);
    var k := LaterAgree(lead, r, d, e);
    OnlyZero(r, d - e, k);
  }

  lemma UnitLeadsOnce(lead: nat, r: nat, joint: nat)
    requires lead < NUM_JOINTS && joint < NUM_JOINTS && Unit(r)
    ensures LeadsOnce(lead, r, joint)
  {
    hide Later, Unit;
    var d := UnitHits(lead, r, joint);
    forall e: nat | e < NUM_JOINTS && Later(lead, r, e) == joint ensures e == d {
      UnitHitsOnce(lead, r, d, e);
    }
    assert OnlyAt(lead, r, joint, d);
  }

  // A stride sharing the factor 2 or 3 with twelve never leaves the lead's class modulo it.
  lemma ClassKept(lead: nat, stride: nat, p: nat, d: nat)
    requires (p == 2 || p == 3) && stride % p == 0
    ensures Later(lead, stride, d) % p == lead % p
  {
    var n := d * (stride / p);
    Regroup(d, p, stride / p);
    ClassOfSum(lead, d * stride, n, p);
  }

  lemma ClassOfSum(lead: nat, m: nat, n: nat, p: nat)
    requires (p == 2 && m == 2 * n) || (p == 3 && m == 3 * n)
    ensures (lead + m) % NUM_JOINTS % p == lead % p
  {
    var k, rest := (lead + m) / NUM_JOINTS, (lead + m) % NUM_JOINTS;
    if p == 2 {
      QuotientUnique(rest, 2, lead / 2 + n - 6 * k, lead % 2);
    } else {
      QuotientUnique(rest, 3, lead / 3 + n - 4 * k, lead % 3);
    }
  }

  lemma Regroup(d: nat, p: nat, q: nat)
    requires p == 2 || p == 3
    ensures d * (p * q) == (if p == 2 then 2 * (d * q) else 3 * (d * q))
  {
  }

  lemma CoprimeIsUnit(stride: nat)
    ensures Coprime(stride) <==> Unit(stride % NUM_JOINTS)
  {
    var q, r := stride / NUM_JOINTS, stride % NUM_JOINTS;
    QuotientUnique(stride, 2, 6 * q + r / 2, r % 2);
    QuotientUnique(stride, 3, 4 * q + r / 3, r % 3);
  }

  lemma CoprimeLeadsOnce(lead: JointIndex, stride: nat, joint: JointIndex)
    requires Coprime(stride)
    ensures LeadsOnce(lead, stride, joint)
  {
    hide Later, Unit, Coprime;
    var r := stride % NUM_JOINTS;
    CoprimeIsUnit(stride);
    UnitLeadsOnce(lead, r, joint);
    var d: nat :| d < NUM_JOINTS && Later(lead, r, d) == joint && OnlyAt(lead, r, joint, d);
    LaterByRemainder(lead, stride, d);
    forall e: nat | e < NUM_JOINTS && Later(lead, stride, e) == joint ensures e == d {
      LaterByRemainder(lead, stride, e);
    }
    assert OnlyAt(lead, stride, joint, d);
  }

  lemma SharedFactorMisses(lead: JointIndex, stride: nat) returns (joint: JointIndex)
    requires !Coprime(stride)
    ensures !LeadsOnce(lead, stride, joint)
  {
    hide Later;
    var p := if stride % 2 == 0 then 2 else 3;
    joint := if lead % p == 0 then 1 else 0;
    forall d: nat ensures Later(lead, stride, d) != joint {
      ClassKept(lead, stride, p, d);
    }
  }

  // With a stride coprime to twelve, in any twelve consecutive sweeps every joint leads exactly
  // once; with any other stride some joint does not.
  lemma LeadsFairly(lead: JointIndex, stride: nat)
    ensures Coprime(stride) <==> forall joint: JointIndex :: LeadsOnce(lead, stride, joint)
  {
    hide LeadsOnce;
    if Coprime(stride) {
      forall joint: JointIndex ensures LeadsOnce(lead, stride, joint) {
        CoprimeLeadsOnce(lead, stride, joint);
      }
    } else {
      var joint := SharedFactorMisses(lead, stride);
    }
  }
}
