/** Loading the joint map: which lists of joint entries the driver accepts, and in what order. */
module JointMap {
  import opened Outcome
  import opened Poses
  import Calibration

  datatype Entry = Entry(
    policyIndex: nat, servoId: int, joint: Calibration.Joint, speed: int, acceleration: int)

  predicate ValidEntry(e: Entry) {
    && 0 <= e.servoId <= 253 && 0 <= e.speed <= 32767 && 0 <= e.acceleration <= 254
    && Calibration.Valid(e.joint)
    && e.joint.minRad <= e.joint.trainingDefault <= e.joint.maxRad
  }

  function Project<T>(s: seq<Entry>, f: Entry -> T): (r: seq<T>)
    ensures |r| == |s| && forall i :: 0 <= i < |s| ==> r[i] == f(s[i])
  {
    seq(|s|, i requires 0 <= i < |s| => f(s[i]))
  }

  lemma ProjectFirst<T>(e: Entry, s: seq<Entry>, f: Entry -> T)
    ensures multiset(Project([e] + s, f)) == multiset{f(e)} + multiset(Project(s, f))
  {
    assert Project([e] + s, f) == [f(e)] + Project(s, f);
  }

  function Indices(s: seq<Entry>): (r: seq<nat>)
    ensures |r| == |s| && forall i :: 0 <= i < |s| ==> r[i] == s[i].policyIndex
  {
    Project(s, (e: Entry) => e.policyIndex)
  }

  function Ids(s: seq<Entry>): (r: seq<int>)
    ensures |r| == |s| && forall i :: 0 <= i < |s| ==> r[i] == s[i].servoId
  {
    Project(s, (e: Entry) => e.servoId)
  }

  // Twelve valid entries whose policy indices are 0 to 11 in some order, and no servo twice.
  ghost predicate Acceptable(entries: seq<Entry>) {
    && (forall i :: 0 <= i < |entries| ==> ValidEntry(entries[i]))
    && |entries| == NUM_JOINTS
    && multiset(Indices(entries)) == multiset(UpTo(NUM_JOINTS))
    && Distinct(Ids(entries))
  }

  function UpTo(n: nat): seq<nat> { seq(n, i => i) }

  ghost predicate Distinct(s: seq<int>) { forall i, j :: 0 <= i < j < |s| ==> s[i] != s[j] }

  predicate Sorted(s: seq<Entry>) {
    forall i, j :: 0 <= i <= j < |s| ==> s[i].policyIndex <= s[j].policyIndex
  }

  ghost predicate Ascending(s: seq<nat>) { forall i, j :: 0 <= i <= j < |s| ==> s[i] <= s[j] }

  // ------------------------------------------------------------------------------- sorting

  function Insert(e: Entry, s: seq<Entry>): (r: seq<Entry>)
    requires Sorted(s)
    ensures Sorted(r) && |r| == |s| + 1
    ensures forall x :: x in r ==> x == e || x in s
  {
    if s == [] || e.policyIndex <= s[0].policyIndex then [e] + s
    else
      var rest := Insert(e, s[1..]);
      assert forall x :: x in rest ==> s[0].policyIndex <= x.policyIndex;
      [s[0]] + rest
  }

  // std::sort by policy index
  function Sort(s: seq<Entry>): (r: seq<Entry>)
    ensures Sorted(r) && |r| == |s|
  {
    if s == [] then [] else Insert(s[0], Sort(s[1..]))
  }

  lemma {:induction false} InsertPermutes<T>(e: Entry, s: seq<Entry>, f: Entry -> T)
    requires Sorted(s)
    ensures multiset(Project(Insert(e, s), f)) == multiset(Project(s, f)) + multiset{f(e)}
  {
    hide Project, Sorted;
    if s == [] || e.policyIndex <= s[0].policyIndex {
      ProjectFirst(e, s, f);
    } else {
      var rest := s[1..];
      assert s == [s[0]] + rest;
      assert Sorted(rest) by { SortedRest(s); }
      InsertPermutes(e, rest, f);
      ProjectFirst(s[0], rest, f);
      ProjectFirst(s[0], Insert(e, rest), f);
    }
  }

  lemma SortedRest(s: seq<Entry>)
    requires Sorted(s) && s != []
    ensures Sorted(s[1..])
  {
  }

  lemma {:induction false} SortPermutes<T>(s: seq<Entry>, f: Entry -> T)
    ensures multiset(Project(Sort(s), f)) == multiset(Project(s, f))
  {
    hide Insert;
    if s != [] {
      SortPermutes(s[1..], f);
      InsertPermutes(s[0], Sort(s[1..]), f);
      assert s == [s[0]] + s[1..];
      ProjectFirst(s[0], s[1..], f);
    }
  }

  lemma SortKeepsEntries(s: seq<Entry>)
    ensures multiset(Sort(s)) == multiset(s)
  {
    var same := (e: Entry) => e;
    SortPermutes(s, same);
    assert Project(s, same) == s && Project(Sort(s), same) == Sort(s);
  }

  lemma {:induction false} AscendingUnique(s: seq<nat>, t: seq<nat>)
    requires Ascending(s) && Ascending(t) && multiset(s) == multiset(t)
    ensures s == t
  {
    assert |multiset(s)| == |s| && |multiset(t)| == |t|;
    if s != [] {
      SameFirst(s, t);
      RestOfMultiset(s);
      RestOfMultiset(t);
      AscendingUnique(s[1..], t[1..]);
    }
  }

  lemma RestOfMultiset(s: seq<nat>)
    requires s != []
    ensures s == [s[0]] + s[1..] && multiset(s[1..]) == multiset(s) - multiset{s[0]}
    ensures Ascending(s) ==> Ascending(s[1..])
  {
    assert s == [s[0]] + s[1..];
  }

  lemma SameFirst(s: seq<nat>, t: seq<nat>)
    requires s != [] && t != [] && Ascending(s) && Ascending(t) && multiset(s) == multiset(t)
    ensures s[0] == t[0]
  {
    assert s[0] in multiset(t) && t[0] in multiset(s);
  }

  lemma {:induction false} DistinctIsCount(s: seq<int>)
    ensures Distinct(s) <==> forall x :: multiset(s)[x] <= 1
  {
    if s != [] {
      var rest := s[1..];
      assert s == [s[0]] + rest;
      DistinctIsCount(rest);
      assert Distinct(s) <==> Distinct(rest) && s[0] !in rest by {
        assert forall i :: 0 <= i < |rest| ==> rest[i] == s[i + 1];
      }
      assert forall x :: multiset(s)[x] == multiset(rest)[x] + if x == s[0] then 1 else 0;
      assert s[0] in rest <==> multiset(rest)[s[0]] > 0;
    }
  }

  lemma DistinctSurvivesSorting(s: seq<Entry>)
    ensures Distinct(Ids(Sort(s))) <==> Distinct(Ids(s))
  {
    SortPermutes(s, (e: Entry) => e.servoId);
    DistinctIsCount(Ids(s));
    DistinctIsCount(Ids(Sort(s)));
  }

  lemma SortedIndices(s: seq<Entry>)
    ensures multiset(Indices(s)) == multiset(UpTo(|s|)) <==>
              forall i :: 0 <= i < |s| ==> Sort(s)[i].policyIndex == i
  {
    var r := Indices(Sort(s));
    SortPermutes(s, (e: Entry) => e.policyIndex);
    if multiset(r) == multiset(UpTo(|s|)) {
      AscendingUnique(r, UpTo(|s|));
    }
    if forall i :: 0 <= i < |s| ==> Sort(s)[i].policyIndex == i {
      assert r == UpTo(|s|);
    }
  }

  ghost predicate HasIndex(s: seq<Entry>, p: nat) {
    exists i :: 0 <= i < |s| && s[i].policyIndex == p
  }

  // What Load accepts, in full.
  lemma AcceptsExactly(entries: seq<Entry>)
    ensures Acceptable(entries) <==>
      && |entries| == 12
      && (forall i :: 0 <= i < 12 ==>
            var e, j := entries[i], entries[i].joint;
            && 0 <= e.servoId <= 253 && 0 <= e.speed <= 32767 && 0 <= e.acceleration <= 254
            && (j.sign == 1 || j.sign == -1) && j.minStep <= j.maxStep
            && j.minRad <= j.trainingDefault <= j.maxRad)
      && (forall p: nat :: p < 12 ==> HasIndex(entries, p))
      && (forall i, k :: 0 <= i < k < 12 ==> entries[i].servoId != entries[k].servoId)
  {
    hide UpTo, HasIndex;
    if |entries| == 12 {
      IndicesCovered(entries);
    }
  }

  // As many indices as numbers to cover: covering them is being a permutation of them.
  lemma IndicesCovered(s: seq<Entry>)
    ensures multiset(Indices(s)) == multiset(UpTo(|s|)) <==>
              forall p: nat :: p < |s| ==> HasIndex(s, p)
  {
    hide HasIndex, UpTo;
    var a, b := multiset(UpTo(|s|)), multiset(Indices(s));
    forall p: nat ensures HasIndex(s, p) <==> b[p] > 0 {
      IndexCounted(s, p);
    }
    forall p: nat ensures a[p] == if p < |s| then 1 else 0 {
      UpToCounted(|s|, p);
    }
    if forall p: nat :: p < |s| ==> HasIndex(s, p) {
      UpToCounted(|s|, 0);
      SameSize(a, b);
    }
  }

  lemma IndexCounted(s: seq<Entry>, p: nat)
    ensures HasIndex(s, p) <==> multiset(Indices(s))[p] > 0
  {
    assert p in Indices(s) <==> p in multiset(Indices(s));
    if HasIndex(s, p) {
      var i :| 0 <= i < |s| && s[i].policyIndex == p;
      assert Indices(s)[i] == p;
    }
  }

  lemma UpToCounted(n: nat, p: nat)
    ensures multiset(UpTo(n))[p] == (if p < n then 1 else 0) && |UpTo(n)| == n
  {
    DistinctIsCount(UpTo(n));
    assert p < n ==> UpTo(n)[p] == p;
    assert p in multiset(UpTo(n)) <==> p in UpTo(n);
  }

  lemma SameSize(a: multiset<nat>, b: multiset<nat>)
    requires |a| == |b| && forall p :: a[p] <= b[p]
    ensures a == b
  {
    assert b == a + (b - a);
  }

  // ------------------------------------------------------------------------------- loading

  // loadFromYaml, from the entries on.
  method Load(entries: seq<Entry>) returns (r: Result<seq<Entry>>)
    ensures r.Ok? <==> Acceptable(entries)
    ensures r.Ok? ==>
              && multiset(r.value) == multiset(entries) && |r.value| == NUM_JOINTS
              && forall i :: 0 <= i < NUM_JOINTS ==>
                   r.value[i].policyIndex == i && ValidEntry(r.value[i])
  {
    hide Sort, Indices, Ids, ValidEntry, UpTo, Distinct;
    for i := 0 to |entries|
      invariant forall j :: 0 <= j < i ==> ValidEntry(entries[j])
    {
      if !ValidEntry(entries[i]) {
        return Error("invalid joint entry");
      }
    }
    if |entries| != NUM_JOINTS {
      return Error("exactly 12 joints required");
    }
    var joints := Sort(entries);
    SortKeepsEntries(entries);
    SortedIndices(entries);
    DistinctSurvivesSorting(entries);
    var ordered := CheckOrder(joints);
    if !ordered {
      return Error("policy indices must be contiguous and servo IDs unique");
    }
    forall i | 0 <= i < NUM_JOINTS ensures ValidEntry(joints[i]) {
      assert joints[i] in multiset(joints);
    }
    return Ok(joints);
  }

  method CheckOrder(joints: seq<Entry>) returns (ok: bool)
    ensures ok <==> (forall i :: 0 <= i < |joints| ==> joints[i].policyIndex == i) && Distinct(Ids(joints))
  {
    hide Ids;
    var servoIds: set<int> := {};
    for i := 0 to |joints|
      invariant forall j :: 0 <= j < i ==> joints[j].policyIndex == j
      invariant forall x :: x in servoIds <==> exists j :: 0 <= j < i && joints[j].servoId == x
      invariant forall j, l :: 0 <= j < l < i ==> joints[j].servoId != joints[l].servoId
    {
      if joints[i].policyIndex != i {
        return false;
      }
      if joints[i].servoId in servoIds {
        var j :| 0 <= j < i && joints[j].servoId == joints[i].servoId;
        assert Ids(joints)[j] == Ids(joints)[i];
        return false;
      }
      servoIds := servoIds + {joints[i].servoId};
    }
    return true;
  }
}
