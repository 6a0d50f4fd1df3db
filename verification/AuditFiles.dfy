/** The audit run on a file of disk records: the loader
    (benchmarks/edu_complex_benchmark_manual.c:114-231) makes one school for each id,
    from the first record that has it, where the specification
    (benchmarks/edu_complex_data.py:183-250) takes every record's own fields. */
module AuditFiles {
  import opened Lists
  import opened ProbeTable
  import opened Audit

  /** A record in memory: what was on disk, and the school it points to. */
  datatype Student<D, V> = Student(disk: D, school: V)

  /** The open arithmetic on disk records and schools. */
  datatype FileFormulas<!D, !V> = FileFormulas(
    id: D -> nat, derive: D -> V, index: V -> int,
    enrich: (Student<D, V>, Student<D, V>, Student<D, V>, Student<D, V>) -> Enriched,
    mixCompliance: (nat, int, int) -> nat,
    sign: (nat, nat, nat, nat, nat, int, nat, nat) -> int,
    mixDigest: (nat, nat, nat, nat, int, nat) -> nat)

  /** The special index of a record is that of the school it points to. */
  function InMemory<D, V>(g: FileFormulas<D, V>): Formulas<Student<D, V>> {
    var index := (s: Student<D, V>) => g.index(s.school);
    Formulas((s: Student<D, V>) => g.id(s.disk), index, index, g.enrich, g.mixCompliance, g.sign, g.mixDigest)
  }

  /** Every record with a school of its own fields, as the specification reads it. */
  function Own<D, V>(g: FileFormulas<D, V>, disks: seq<D>): (r: seq<Student<D, V>>)
    ensures |r| == |disks|
    ensures forall i | 0 <= i < |disks| :: r[i] == Student(disks[i], g.derive(disks[i]))
  {
    seq(|disks|, i requires 0 <= i < |disks| => Student(disks[i], g.derive(disks[i])))
  }

  /** The first record of the id. */
  function FirstOf<D, V>(g: FileFormulas<D, V>, disks: seq<D>, at: nat): (d: D)
    requires at < |disks|
    ensures d in disks && g.id(d) == g.id(disks[at])
  {
    if g.id(disks[0]) == g.id(disks[at]) then disks[0] else FirstOf(g, disks[1..], at - 1)
  }

  /** Every record with the school of the first record of its id. */
  function Loaded<D, V>(g: FileFormulas<D, V>, disks: seq<D>): (r: seq<Student<D, V>>)
    ensures |r| == |disks|
    ensures forall i | 0 <= i < |disks| :: r[i] == Student(disks[i], g.derive(FirstOf(g, disks, i)))
  {
    seq(|disks|, i requires 0 <= i < |disks| => Student(disks[i], g.derive(FirstOf(g, disks, i))))
  }

  lemma {:induction false} SchoolOfFirst<D, V>(g: FileFormulas<D, V>, disks: seq<D>, at: nat)
    requires at < |disks|
    ensures SchoolOf(g.id, g.derive, disks, g.id(disks[at])) == Some(g.derive(FirstOf(g, disks, at)))
  {
    if g.id(disks[0]) != g.id(disks[at]) {
      SchoolOfFirst(g, disks[1..], at - 1);
    }
  }

  /** Records of one id have one first record. */
  lemma {:induction false} SameFirst<D, V>(g: FileFormulas<D, V>, disks: seq<D>, i: nat, j: nat)
    requires i < |disks| && j < |disks| && g.id(disks[i]) == g.id(disks[j])
    ensures FirstOf(g, disks, i) == FirstOf(g, disks, j)
  {
    if g.id(disks[0]) != g.id(disks[i]) {
      SameFirst(g, disks[1..], i - 1, j - 1);
    }
  }

  /** Loaded records of one id share their school, whatever the file says. */
  lemma LoadedShareSchools<D, V>(g: FileFormulas<D, V>, disks: seq<D>)
    ensures OneSchoolPerId(InMemory(g), Loaded(g, disks))
  {
    var f, records := InMemory(g), Loaded(g, disks);
    forall i, j | 0 <= i < |records| && 0 <= j < |records| && f.id(records[i]) == f.id(records[j])
      ensures f.shown(records[i]) == f.special(records[j])
    {
      SameFirst(g, disks, i, j);
    }
  }

  /** The records of one id say the same about their school. */
  predicate Consistent<D, V(==)>(g: FileFormulas<D, V>, disks: seq<D>) {
    forall i, j | 0 <= i < |disks| && 0 <= j < |disks| && g.id(disks[i]) == g.id(disks[j]) ::
      g.derive(disks[i]) == g.derive(disks[j])
  }

  lemma {:induction false} FirstAt<D, V>(g: FileFormulas<D, V>, disks: seq<D>, at: nat) returns (k: nat)
    requires at < |disks|
    ensures k <= at && disks[k] == FirstOf(g, disks, at) && g.id(disks[k]) == g.id(disks[at])
  {
    if g.id(disks[0]) == g.id(disks[at]) {
      k := 0;
    } else {
      var m := FirstAt(g, disks[1..], at - 1);
      k := m + 1;
    }
  }

  /** The loader gives every record the school of its own fields exactly when the
      records of each id agree about it. */
  lemma LoadedIsOwnExact<D, V>(g: FileFormulas<D, V>, disks: seq<D>)
    ensures Loaded(g, disks) == Own(g, disks) <==> Consistent(g, disks)
  {
    if Consistent(g, disks) {
      forall i | 0 <= i < |disks|
        ensures Loaded(g, disks)[i] == Own(g, disks)[i]
      {
        var k := FirstAt(g, disks, i);
      }
    }
    if Loaded(g, disks) == Own(g, disks) {
      forall i, j | 0 <= i < |disks| && 0 <= j < |disks| && g.id(disks[i]) == g.id(disks[j])
        ensures g.derive(disks[i]) == g.derive(disks[j])
      {
        SameFirst(g, disks, i, j);
        assert Loaded(g, disks)[i] == Own(g, disks)[i] && Loaded(g, disks)[j] == Own(g, disks)[j];
      }
    }
  }

  /** The loader up to the list of records. */
  method Load<D, V>(hash: nat -> nat, g: FileFormulas<D, V>, disks: seq<D>) returns (records: seq<Student<D, V>>)
    requires |disks| <= 0x4000_0000
    ensures records == Loaded(g, disks)
  {
    var ok, table, schools := LoadSchools(hash, g.id, g.derive, disks);
    records := [];
    for i := 0 to |disks|
      invariant |records| == i && forall k | 0 <= k < i :: records[k] == Student(disks[k], schools[k])
    {
      records := records + [Student(disks[i], schools[i])];
    }
    forall i | 0 <= i < |disks|
      ensures records[i] == Loaded(g, disks)[i]
    {
      SchoolOfFirst(g, disks, i);
      assert SchoolOf(g.id, g.derive, disks, g.id(disks[i])) == Some(schools[i]);
    }
  }

  /** The manual benchmark on any file: the digest specified for the loaded records,
      which is that of the records' own fields where the records of each id agree. */
  method AuditManual<D, V>(hash: nat -> nat, g: FileFormulas<D, V>, disks: seq<D>) returns (result: Digest)
    requires |disks| <= 0x4000_0000
    ensures result == Specified(InMemory(g), Loaded(g, disks))
    ensures Consistent(g, disks) ==> result == Specified(InMemory(g), Own(g, disks))
  {
    var records := Load(hash, g, disks);
    LoadedShareSchools(g, disks);
    LoadedIsOwnExact(g, disks);
    result := RunManual(InMemory(g), records);
  }

  /** The planner's benchmark on any file with no more school ids than table slots. */
  method AuditPlanner<D, V>(hash: nat -> nat, g: FileFormulas<D, V>, disks: seq<D>) returns (result: Digest)
    requires |disks| <= 0x4000_0000 && |Ids(InMemory(g), Loaded(g, disks))| <= DATABASE_CAPACITY
    ensures result == Specified(Narrowed(InMemory(g)), Loaded(g, disks))
    ensures Consistent(g, disks) && AllHarmless(InMemory(g), Windows(Own(g, disks)), map[]) ==>
              result == Specified(InMemory(g), Own(g, disks))
  {
    var records := Load(hash, g, disks);
    LoadedShareSchools(g, disks);
    LoadedIsOwnExact(g, disks);
    if Consistent(g, disks) && AllHarmless(InMemory(g), Windows(Own(g, disks)), map[]) {
      NarrowedIsSpecified(InMemory(g), Own(g, disks));
    }
    result := RunPlanner(InMemory(g), hash, records);
  }
}
