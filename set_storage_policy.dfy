/**
 * The set-storage-policy bulk operation of the namenode analytics tool.
 *
 * An operation owns the working set of inodes chosen by a query and is advanced
 * one inode per call to PerformOp by an external driver. Each successful step
 * writes one audit record, records the path as operated on, removes the inode
 * from the remaining working set and caches the next candidate.
 *
 * The state the operation inherits from its base class (the remaining
 * collection, its iterator, the cached candidate, the processed paths and the
 * audit log) is modelled as a cursor over an owned sequence: the iterator's
 * current element is always removed before the iterator moves on, so the cached
 * candidate is always the head of the remaining sequence.
 */
module StoragePolicyOperation {
  import opened Options

  /** What the operation reads of an inode: its full path and its two type tests. */
  datatype INode = INode(fullPathName: string, isFile: bool, isDirectory: bool)

  /** One audit-log line: the path, the inode type written ("FILE" or "DIR") and the outcome. */
  datatype LogRecord = LogRecord(path: string, inodeType: string, success: bool)

  /** An inode the operation can act on. Anything else stalls the operation. */
  predicate Classifiable(n: INode) {
    n.isFile || n.isDirectory
  }

  /** The type tag logged for an inode; the file test takes priority over the directory test. */
  function InodeType(n: INode): string
    requires Classifiable(n)
  {
    if n.isFile then "FILE" else "DIR"
  }

  /** The audit record of a step over inode n. The storage-policy call itself is not
      implemented by the operation, so every step is recorded as a success. */
  function Record(n: INode): LogRecord
    requires Classifiable(n)
  {
    LogRecord(n.fullPathName, InodeType(n), true)
  }

  function Paths(s: seq<INode>): (r: seq<string>)
    ensures |r| == |s|
  {
    seq(|s|, i requires 0 <= i < |s| => s[i].fullPathName)
  }

  predicate AllClassifiable(s: seq<INode>) {
    forall i :: 0 <= i < |s| ==> Classifiable(s[i])
  }

  function Records(s: seq<INode>): (r: seq<LogRecord>)
    requires AllClassifiable(s)
    ensures |r| == |s|
  {
    seq(|s|, i requires 0 <= i < |s| => Record(s[i]))
  }

  predicate Distinct<T(==)>(s: seq<T>) {
    forall i, j :: 0 <= i < j < |s| ==> s[i] != s[j]
  }

  /** A snapshot of the mutable state of an operation. */
  datatype Progress = Progress(
    toOperate: seq<INode>,
    nextToOperate: Option<INode>,
    pathsOperated: seq<string>,
    log: seq<LogRecord>)

  /** The cached candidate is the head of the remaining working set (None once it is empty). */
  predicate CursorAtHead(p: Progress) {
    p.nextToOperate == Head(p.toOperate)
  }

  /** The operation state reached from working set ws after |p.log| successful steps:
      the first |p.log| inodes were all classifiable, each was logged and recorded in
      order, and the rest of ws remains with its head cached. */
  predicate Consistent(p: Progress, ws: seq<INode>) {
    && |p.log| <= |ws|
    && AllClassifiable(ws[..|p.log|])
    && p.toOperate == ws[|p.log|..]
    && p.pathsOperated == Paths(ws[..|p.log|])
    && p.log == Records(ws[..|p.log|])
    && CursorAtHead(p)
  }

  /** The state of a fresh operation over working set ws. */
  function Initial(ws: seq<INode>): (p: Progress)
    ensures Consistent(p, ws)
    ensures p.nextToOperate.None? <==> ws == []
  {
    Progress(ws, Head(ws), [], [])
  }

  /** One call of performOp on state p: its return value and the new state. */
  function Step(p: Progress): (r: (bool, Progress))
    requires CursorAtHead(p)
    ensures CursorAtHead(r.1)
    ensures r.0 <==> p.nextToOperate.Some? && Classifiable(p.nextToOperate.value)
    ensures !r.0 ==> r.1 == p
    ensures r.0 ==> && r.1.toOperate == p.toOperate[1..]
                    && r.1.pathsOperated == p.pathsOperated + [p.toOperate[0].fullPathName]
                    && r.1.log == p.log + [Record(p.toOperate[0])]
    ensures |r.1.toOperate| + |r.1.pathsOperated| == |p.toOperate| + |p.pathsOperated|
    ensures |r.1.log| - |r.1.pathsOperated| == |p.log| - |p.pathsOperated|
  {
    match p.nextToOperate
    case None => (false, p)
    case Some(n) =>
      if n.isFile || n.isDirectory then
        var rest := p.toOperate[1..];
        (true, Progress(rest, Head(rest), p.pathsOperated + [n.fullPathName], p.log + [Record(n)]))
      else
        (false, p)
  }

  /** Step preserves the link between the state and the working set it was built from. */
  lemma StepConsistent(p: Progress, ws: seq<INode>)
    requires Consistent(p, ws)
    ensures Consistent(Step(p).1, ws)
  {
    var (ok, q) := Step(p);
    if ok {
      var k := |p.log|;
      assert ws[..k + 1] == ws[..k] + [ws[k]];
      assert Paths(ws[..k + 1]) == Paths(ws[..k]) + [ws[k].fullPathName];
      assert Records(ws[..k + 1]) == Records(ws[..k]) + [Record(ws[k])];
      assert ws[k + 1..] == ws[k..][1..];
    }
  }

  /** k consecutive calls of performOp from state p: the k return values and the final state. */
  function Run(p: Progress, k: nat): (r: (seq<bool>, Progress))
    requires CursorAtHead(p)
    ensures CursorAtHead(r.1)
    decreases k
  {
    if k == 0 then ([], p)
    else
      var (ok, q) := Step(p);
      var (oks, r) := Run(q, k - 1);
      ([ok] + oks, r)
  }

  function Results(p: Progress, k: nat): seq<bool>
    requires CursorAtHead(p)
  {
    Run(p, k).0
  }

  function After(p: Progress, k: nat): (q: Progress)
    requires CursorAtHead(p)
    ensures CursorAtHead(q)
  {
    Run(p, k).1
  }

  function CountTrue(bs: seq<bool>): (n: nat)
    ensures n <= |bs|
  {
    if bs == [] then 0 else (if bs[0] then 1 else 0) + CountTrue(bs[1..])
  }

  /** Over any number of calls, every successful call adds exactly one audit record and
      one operated path, and the remaining and operated entries together keep their count. */
  lemma {:induction false} RunAccounting(p: Progress, k: nat)
    requires CursorAtHead(p)
    ensures |Results(p, k)| == k
    ensures |After(p, k).log| == |p.log| + CountTrue(Results(p, k))
    ensures |After(p, k).pathsOperated| == |p.pathsOperated| + CountTrue(Results(p, k))
    ensures |After(p, k).toOperate| + |After(p, k).pathsOperated| == |p.toOperate| + |p.pathsOperated|
    ensures p.pathsOperated <= After(p, k).pathsOperated && p.log <= After(p, k).log
    decreases k
  {
    if k > 0 {
      var q := Step(p).1;
      RunAccounting(q, k - 1);
      assert Results(p, k) == [Step(p).0] + Results(q, k - 1);
      assert Results(p, k)[1..] == Results(q, k - 1);
    }
  }

  /** Consistency with the working set holds after any number of calls. */
  lemma {:induction false} RunConsistent(p: Progress, ws: seq<INode>, k: nat)
    requires Consistent(p, ws)
    ensures Consistent(After(p, k), ws)
    decreases k
  {
    if k > 0 {
      StepConsistent(p, ws);
      RunConsistent(Step(p).1, ws, k - 1);
    }
  }

  /** From a consistent state whose remaining inodes are all files or directories, as many
      calls as there are remaining inodes all return true and empty the working set; the
      operated paths and the audit log then cover the whole working set in visit order,
      and one more call returns false and changes nothing. */
  lemma {:induction false} DrainRemaining(p: Progress, ws: seq<INode>)
    requires Consistent(p, ws)
    requires AllClassifiable(p.toOperate)
    ensures AllClassifiable(ws)
    ensures Results(p, |p.toOperate|) == seq(|p.toOperate|, _ => true)
    ensures After(p, |p.toOperate|) == Progress([], None, Paths(ws), Records(ws))
    ensures Step(After(p, |p.toOperate|)) == (false, After(p, |p.toOperate|))
    decreases |p.toOperate|
  {
    var k := |p.log|;
    assert ws == ws[..k] + ws[k..];
    assert AllClassifiable(ws) by {
      forall i | 0 <= i < |ws| ensures Classifiable(ws[i]) {
        if i < k { assert ws[i] == ws[..k][i]; } else { assert ws[i] == p.toOperate[i - k]; }
      }
    }
    if p.toOperate == [] {
      assert ws[..k] == ws;
    } else {
      var q := Step(p).1;
      StepConsistent(p, ws);
      assert AllClassifiable(q.toOperate) by {
        forall i | 0 <= i < |q.toOperate| ensures Classifiable(q.toOperate[i]) {
          assert q.toOperate[i] == p.toOperate[i + 1];
        }
      }
      DrainRemaining(q, ws);
      assert Results(p, |p.toOperate|) == [true] + Results(q, |q.toOperate|);
    }
  }

  /** A campaign over N files or directories: exactly N calls return true, the (N+1)-th
      returns false, and the operated paths are the N paths in visit order. */
  lemma CampaignCompletes(ws: seq<INode>)
    requires AllClassifiable(ws)
    ensures Results(Initial(ws), |ws|) == seq(|ws|, _ => true)
    ensures After(Initial(ws), |ws|).pathsOperated == Paths(ws)
    ensures After(Initial(ws), |ws|).log == Records(ws)
    ensures After(Initial(ws), |ws|).nextToOperate == None
    ensures Step(After(Initial(ws), |ws|)).0 == false
  {
    DrainRemaining(Initial(ws), ws);
  }

  /** When the inodes of the working set have distinct paths (as inodes of one namespace
      do), no path is ever operated on twice. */
  lemma NoPathOperatedTwice(p: Progress, ws: seq<INode>)
    requires Consistent(p, ws)
    requires Distinct(Paths(ws))
    ensures Distinct(p.pathsOperated)
  {
    var k := |p.log|;
    forall i, j | 0 <= i < j < k ensures p.pathsOperated[i] != p.pathsOperated[j] {
      assert p.pathsOperated[i] == Paths(ws)[i] && p.pathsOperated[j] == Paths(ws)[j];
    }
  }

  /** A cached candidate that is neither a file nor a directory stalls the operation:
      every later call returns false and nothing changes, while a candidate stays cached. */
  lemma {:induction false} StallIsPermanent(p: Progress, k: nat)
    requires CursorAtHead(p)
    requires p.nextToOperate.Some? && !Classifiable(p.nextToOperate.value)
    ensures Results(p, k) == seq(k, _ => false)
    ensures After(p, k) == p
  {
    if k > 0 {
      StallIsPermanent(p, k - 1);
      assert Results(p, k) == [false] + Results(p, k - 1);
    }
  }

  /** The operation that sets one storage policy on every inode of a working set. */
  class SetStoragePolicy {
    const query: string
    const owner: string
    const logBaseDir: string
    const newStoragePolicy: string

    /** The working set as it was when the operation was constructed. */
    ghost const workingSet: seq<INode>

    var toOperate: seq<INode>
    var nextToOperate: Option<INode>
    var pathsOperated: seq<string>
    var log: seq<LogRecord>

    ghost function Snapshot(): Progress
      reads this
    {
      Progress(toOperate, nextToOperate, pathsOperated, log)
    }

    ghost predicate Valid()
      reads this
    {
      Consistent(Snapshot(), workingSet)
    }

    constructor (toSetRep: seq<INode>, query: string, owner: string, logBaseDir: string,
                 newStoragePolicy: string)
      ensures Valid() && workingSet == toSetRep
      ensures Snapshot() == Initial(toSetRep)
      ensures this.query == query && this.owner == owner && this.logBaseDir == logBaseDir
      ensures this.newStoragePolicy == newStoragePolicy
    {
      this.query := query;
      this.owner := owner;
      this.logBaseDir := logBaseDir;
      this.newStoragePolicy := newStoragePolicy;
      workingSet := toSetRep;
      toOperate := toSetRep;
      nextToOperate := if toSetRep == [] then None else Some(toSetRep[0]);
      pathsOperated := [];
      log := [];
    }

    /** Whether a candidate is cached: exactly when inodes remain to operate on. */
    function HasNext(): (r: bool)
      reads this
      requires Valid()
      ensures r <==> toOperate != []
    {
      nextToOperate.Some?
    }

    /** One step of the campaign; see Step for what it does to the state. */
    method PerformOp() returns (ok: bool)
      requires Valid()
      modifies this
      ensures Valid()
      ensures (ok, Snapshot()) == Step(old(Snapshot()))
    {
      if nextToOperate.None? {
        return false;
      }
      var candidate := nextToOperate.value;
      var path := candidate.fullPathName;
      var file := candidate.isFile;
      var dir := candidate.isDirectory;
      var success := true;
      var inodeType: string;
      if file {
        inodeType := "FILE";
      } else if dir {
        inodeType := "DIR";
      } else {
        return false;
      }
      log := log + [LogRecord(path, inodeType, success)];
      pathsOperated := pathsOperated + [path];
      toOperate := toOperate[1..];
      nextToOperate := if toOperate != [] then Some(toOperate[0]) else None;
      StepConsistent(old(Snapshot()), workingSet);
      return true;
    }

    /** The operation's name, the same whatever the state. */
    function Type(): (name: string)
      ensures name == "setStoragePolicy"
    {
      "setStoragePolicy"
    }
  }
}
