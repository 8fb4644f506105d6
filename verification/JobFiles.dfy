/** The intermediate files by name: what a map task writes under its task number is what the
    reduce task reads under the names the coordinator gave it. */
module JobFiles {
  import opened Coordinator
  import opened MapReduce
  import opened Job
  import opened CoordinatorObject

  type Disk = map<FileName, seq<KeyValue>>

  /** One of the first n files of map task number `id`; reduce tasks are numbered from 1. */
  predicate FileOf(f: FileName, id: nat, n: nat)
  {
    f.Intermediate? && f.m == id && 1 <= f.r <= n
  }

  /** The buckets `out` were written as the files of map task number `id`, and no other file. */
  ghost predicate Wrote(disk: Disk, id: nat, out: seq<seq<KeyValue>>, after: Disk)
  {
    && (forall f :: f in after <==> f in disk || FileOf(f, id, |out|))
    && (forall f :: f in after ==> after[f] == if FileOf(f, id, |out|) then out[f.r - 1] else disk[f])
  }

  method WriteFiles(disk: Disk, id: nat, out: seq<seq<KeyValue>>) returns (after: Disk)
    ensures Wrote(disk, id, out, after)
  {
    after := disk;
    for r := 0 to |out|
      invariant Wrote(disk, id, out[..r], after)
    {
      after := after[Intermediate(id, r + 1) := out[r]];
    }
    assert out[..|out|] == out;
  }

  /** What the files of these names hold; a file that is not there reads as empty. */
  function ReadFiles(disk: Disk, names: seq<FileName>): (col: seq<seq<KeyValue>>)
    ensures |col| == |names| && forall i :: 0 <= i < |names| ==> col[i] == if names[i] in disk then disk[names[i]] else []
  {
    seq(|names|, i requires 0 <= i < |names| => if names[i] in disk then disk[names[i]] else [])
  }

  /** The disk holds the intermediate files of the job, by map task and reduce task. */
  ghost predicate OnDisk(files: map<(nat, nat), seq<KeyValue>>, disk: Disk)
  {
    forall m: nat, r: nat ::
      && ((m, r) in files <==> Intermediate(m + 1, r + 1) in disk)
      && ((m, r) in files ==> disk[Intermediate(m + 1, r + 1)] == files[(m, r)])
  }

  /** What map task i writes, as task number i + 1, is what the job says it wrote. */
  lemma WritesAreWritten(files: map<(nat, nat), seq<KeyValue>>, disk: Disk, i: nat, out: seq<seq<KeyValue>>, disk': Disk)
    requires OnDisk(files, disk) && Wrote(disk, i + 1, out, disk')
    ensures OnDisk(Written(files, i, out), disk')
  {
    hide Written;
    var after := Written(files, i, out);
    forall m: nat, r: nat
      ensures (m, r) in after <==> Intermediate(m + 1, r + 1) in disk'
      ensures (m, r) in after ==> disk'[Intermediate(m + 1, r + 1)] == after[(m, r)]
    {
      assert (m, r) in files <==> Intermediate(m + 1, r + 1) in disk;
      assert FileOf(Intermediate(m + 1, r + 1), i + 1, |out|) <==> m == i && r < |out|;
    }
  }

  /** The files the coordinator names for reduce task r are the ones the job says it reads. */
  lemma NamesAreRead(s: JobState, disk: Disk, names: seq<FileName>, r: nat)
    requires OnDisk(s.files, disk)
    requires forall m: nat :: m < |names| ==> names[m] == Intermediate(m + 1, r + 1)
    ensures ReadFiles(disk, names) == Reads(s, |names|, r)
  {
    hide ReadFiles, Reads;
    forall m: nat | m < |names| ensures ReadFiles(disk, names)[m] == Reads(s, |names|, r)[m] {
      assert (m, r) in s.files <==> Intermediate(m + 1, r + 1) in disk;
    }
  }

  /** So, with a coordinator made for these inputs, a reduce task reads its whole column. */
  method ReadColumn(inputs: seq<string>, nReduce: nat, r: nat, disk: Disk, ghost s: JobState) returns (col: seq<seq<KeyValue>>)
    requires r < nReduce && OnDisk(s.files, disk)
    ensures col == Reads(s, |inputs|, r)
  {
    var c := new MapReduceCoordinator(inputs, nReduce);
    col := ReadFiles(disk, c.reduces[r].files);
    NamesAreRead(s, disk, c.reduces[r].files, r);
  }
}
