/** Durable metadata keys, the write-through cache over them, and vote persistence. */
module Metadata {
  import opened Types
  import opened Records

  /** A vote as OpenRaft stores it. */
  datatype Vote = Vote(term: u64, votedFor: Option<u64>, committed: bool)

  /** The durable keys of the tree; an absent key is None. A transaction replaces several at once. */
  datatype Disk = Disk(
    vote: Option<VotingState>,
    applied: Option<AppliedState>,
    snapshot: Option<SnapshotMetaState>,
    progress: Option<MergeProgress>,
    voteV2: Option<Vote>)

  function Or<T>(o: Option<T>, default: T): T { if o.Some? then o.value else default }

  /** One committed transaction. */
  datatype Save =
    | SaveVoting(v: VotingState)
    | SaveApplied(a: AppliedState)
    | SaveSnapshot(s: SnapshotMetaState)
    | SaveProgress(p: MergeProgress)
    | SaveBoth(s: SnapshotMetaState, p: MergeProgress)
    | SaveVoteV2(vote: Vote)

  function Commit(d: Disk, op: Save): Disk {
    match op
    case SaveVoting(v) => d.(vote := Some(v))
    case SaveApplied(a) => d.(applied := Some(a))
    case SaveSnapshot(s) => d.(snapshot := Some(s))
    case SaveProgress(p) => d.(progress := Some(p))
    case SaveBoth(s, p) => d.(snapshot := Some(s), progress := Some(p))
    case SaveVoteV2(v) => d.(voteV2 := Some(v))
  }

  /** The cache over the durable keys. `commits` lists every durable state this manager has left on
      disk: the states a crash can expose. */
  class MetadataManager {
    var disk: Disk
    var voting: VotingState
    var applied: AppliedState
    var snapshot: SnapshotMetaState
    var progress: MergeProgress
    ghost var commits: seq<Disk>

    ghost predicate Valid()
      reads this
    {
      && voting == Or(disk.vote, NoVote)
      && applied == Or(disk.applied, NothingApplied)
      && snapshot == Or(disk.snapshot, NoSnapshot)
      && progress == Or(disk.progress, NoMerge)
    }

    constructor (d: Disk)
      ensures disk == d && commits == []
      ensures voting == NoVote && applied == NothingApplied && snapshot == NoSnapshot && progress == NoMerge
    {
      disk := d;
      voting, applied, snapshot, progress := NoVote, NothingApplied, NoSnapshot, NoMerge;
      commits := [];
    }

    /** Load the durable keys; a key that is absent leaves its cached value, which in a fresh manager is
        the default. */
    method Load()
      modifies this
      ensures voting == Or(disk.vote, old(voting)) && applied == Or(disk.applied, old(applied))
      ensures snapshot == Or(disk.snapshot, old(snapshot)) && progress == Or(disk.progress, old(progress))
      ensures disk == old(disk) && commits == old(commits)
    {
      if disk.vote.Some? { voting := disk.vote.value; }
      if disk.applied.Some? { applied := disk.applied.value; }
      if disk.snapshot.Some? { snapshot := disk.snapshot.value; }
      if disk.progress.Some? { progress := disk.progress.value; }
    }

    method SaveVotingState(v: VotingState)
      requires Valid()
      modifies this
      ensures Valid() && disk == Commit(old(disk), SaveVoting(v)) && commits == old(commits) + [disk]
    {
      disk := disk.(vote := Some(v));
      commits := commits + [disk];
      voting := v;
    }

    method SaveAppliedState(a: AppliedState)
      requires Valid()
      modifies this
      ensures Valid() && disk == Commit(old(disk), SaveApplied(a)) && commits == old(commits) + [disk]
    {
      disk := disk.(applied := Some(a));
      commits := commits + [disk];
      applied := a;
    }

    method SaveSnapshotState(s: SnapshotMetaState)
      requires Valid()
      modifies this
      ensures Valid() && disk == Commit(old(disk), SaveSnapshot(s)) && commits == old(commits) + [disk]
    {
      disk := disk.(snapshot := Some(s));
      commits := commits + [disk];
      snapshot := s;
    }

    method SaveMergeProgressState(p: MergeProgress)
      requires Valid()
      modifies this
      ensures Valid() && disk == Commit(old(disk), SaveProgress(p)) && commits == old(commits) + [disk]
    {
      disk := disk.(progress := Some(p));
      commits := commits + [disk];
      progress := p;
    }

    /** Both keys in one transaction. */
    method SaveSnapshotAndMergeState(s: SnapshotMetaState, p: MergeProgress)
      requires Valid()
      modifies this
      ensures Valid() && disk == Commit(old(disk), SaveBoth(s, p)) && commits == old(commits) + [disk]
    {
      disk := disk.(snapshot := Some(s), progress := Some(p));
      commits := commits + [disk];
      snapshot := s;
      progress := p;
    }

    /** Two transactions: the legacy voting state, then the full vote. A crash between them exposes
        the disk with only the first. */
    method SaveVote(v: Vote)
      requires Valid()
      modifies this
      ensures Valid()
      ensures commits == old(commits) + [Commit(old(disk), SaveVoting(VotingState(v.term, v.votedFor))), disk]
      ensures disk == Commit(Commit(old(disk), SaveVoting(VotingState(v.term, v.votedFor))), SaveVoteV2(v))
    {
      SaveVotingState(VotingState(v.term, v.votedFor));
      disk := disk.(voteV2 := Some(v));
      commits := commits + [disk];
    }

    /** The full vote if there is one, else an uncommitted vote from the legacy state. */
    method ReadVote() returns (r: Option<Vote>)
      requires Valid()
      ensures r == VoteOn(disk)
    {
      if disk.voteV2.Some? {
        return disk.voteV2;
      }
      if voting.votedFor.Some? {
        return Some(Vote(voting.currentTerm, voting.votedFor, false));
      }
      return None;
    }
  }

  /** What `read_vote` gives after a reload of this disk. */
  function VoteOn(d: Disk): Option<Vote> {
    if d.voteV2.Some? then d.voteV2
    else if d.vote.Some? && d.vote.value.votedFor.Some?
    then Some(Vote(d.vote.value.currentTerm, d.vote.value.votedFor, false))
    else None
  }

  // ---------------------------------------------------------------- write-through, over whole runs

  /** The durable state after a run of saves. */
  function Durable(d: Disk, ops: seq<Save>): Disk {
    if ops == [] then d else Commit(Durable(d, ops[..|ops| - 1]), ops[|ops| - 1])
  }

  /** The value the last save with a value under `f` wrote. */
  function LastOf<T>(ops: seq<Save>, f: Save -> Option<T>): Option<T> {
    if ops == [] then None
    else if f(ops[|ops| - 1]).Some? then f(ops[|ops| - 1])
    else LastOf(ops[..|ops| - 1], f)
  }

  function Votes(op: Save): Option<VotingState> { if op.SaveVoting? then Some(op.v) else None }
  function Applieds(op: Save): Option<AppliedState> { if op.SaveApplied? then Some(op.a) else None }
  function Snapshots(op: Save): Option<SnapshotMetaState> {
    if op.SaveSnapshot? || op.SaveBoth? then Some(op.s) else None
  }
  function Progresses(op: Save): Option<MergeProgress> {
    if op.SaveProgress? || op.SaveBoth? then Some(op.p) else None
  }

  function FullVotes(op: Save): Option<Vote> { if op.SaveVoteV2? then Some(op.vote) else None }

  function Else<T>(o: Option<T>, other: Option<T>): Option<T> { if o.Some? then o else other }

  lemma {:induction false} DurableIsLastCommitted(d: Disk, ops: seq<Save>)
    ensures var e := Durable(d, ops);
            && e.vote == Else(LastOf(ops, Votes), d.vote)
            && e.applied == Else(LastOf(ops, Applieds), d.applied)
            && e.snapshot == Else(LastOf(ops, Snapshots), d.snapshot)
            && e.progress == Else(LastOf(ops, Progresses), d.progress)
            && e.voteV2 == Else(LastOf(ops, FullVotes), d.voteV2)
  {
    if ops != [] {
      DurableIsLastCommitted(d, ops[..|ops| - 1]);
    }
  }

  /** Run the saves through a manager, crash after any number of them, and load a fresh manager:
      each getter gives the last committed value of its key, what was there before, or the default; and
      the vote read is the last full vote committed or there before, else the legacy one, uncommitted. */
  method CrashAndLoad(d: Disk, ops: seq<Save>, crashAt: nat)
    returns (v: VotingState, a: AppliedState, s: SnapshotMetaState, p: MergeProgress, r: Option<Vote>)
    requires crashAt <= |ops|
    ensures v == Or(Else(LastOf(ops[..crashAt], Votes), d.vote), NoVote)
    ensures a == Or(Else(LastOf(ops[..crashAt], Applieds), d.applied), NothingApplied)
    ensures s == Or(Else(LastOf(ops[..crashAt], Snapshots), d.snapshot), NoSnapshot)
    ensures p == Or(Else(LastOf(ops[..crashAt], Progresses), d.progress), NoMerge)
    ensures var full := Else(LastOf(ops[..crashAt], FullVotes), d.voteV2);
            && (full.Some? ==> r == full)
            && (full.None? ==> r == if v.votedFor.Some? then Some(Vote(v.currentTerm, v.votedFor, false)) else None)
  {
    var m := new MetadataManager(d);
    m.Load();
    for i := 0 to crashAt
      invariant m.Valid() && m.disk == Durable(d, ops[..i])
    {
      assert ops[..i + 1][..i] == ops[..i];
      match ops[i] {
        case SaveVoting(x) => m.SaveVotingState(x);
        case SaveApplied(x) => m.SaveAppliedState(x);
        case SaveSnapshot(x) => m.SaveSnapshotState(x);
        case SaveProgress(x) => m.SaveMergeProgressState(x);
        case SaveBoth(x, y) => m.SaveSnapshotAndMergeState(x, y);
        case SaveVoteV2(x) => m.disk := m.disk.(voteV2 := Some(x));
      }
    }
    DurableIsLastCommitted(d, ops[..crashAt]);
    var reloaded := new MetadataManager(m.disk);
    reloaded.Load();
    v, a, s, p := reloaded.voting, reloaded.applied, reloaded.snapshot, reloaded.progress;
    r := reloaded.ReadVote();
  }

  // ---------------------------------------------------------------- votes, over whole runs

  /** `b` is not older than `a`: a later term, or within a term a first vote, the same vote no less
      committed, or a committed vote over an uncommitted one. */
  predicate NotOlder(b: Vote, a: Vote) {
    || a.term < b.term
    || (a.term == b.term &&
        if a.votedFor == b.votedFor then a.committed ==> b.committed
        else a.votedFor.None? || (b.votedFor.Some? && !a.committed && b.committed))
  }

  lemma NotOlderTransitive(a: Vote, b: Vote, c: Vote)
    requires NotOlder(b, a) && NotOlder(c, b)
    ensures NotOlder(c, a)
  {
  }

  /** The steps of saving votes: first transaction, second transaction, return to the caller; any other
      metadata save, by anyone, at any time; and a crash, after which the node knows only what a reload
      reads. */
  datatype VoteStep = First(vote: Vote) | Second | Ack | Other(op: Save) | Crash

  datatype VoteStage = Ready | Half(vote: Vote) | Full(vote: Vote)

  /** `memory` is the vote the node holds; `asked` lists the votes passed to `save_vote`; `acked` is
      the last one acknowledged, starting from the full vote found on disk. */
  datatype Voter = Voter(disk: Disk, stage: VoteStage, memory: Option<Vote>, asked: seq<Vote>, acked: Option<Vote>)

  /** All a caller promises: a vote it saves is not older than the one it holds. */
  predicate VoteEnabled(s: Voter, e: VoteStep) {
    match e
    case First(v) => s.stage.Ready? && (s.memory.Some? ==> NotOlder(v, s.memory.value))
    case Second => s.stage.Half?
    case Ack => s.stage.Full?
    case Other(op) => !op.SaveVoting? && !op.SaveVoteV2?
    case Crash => true
  }

  function VoteNext(s: Voter, e: VoteStep): Voter
    requires VoteEnabled(s, e)
  {
    match e
    case First(v) =>
      s.(disk := Commit(s.disk, SaveVoting(VotingState(v.term, v.votedFor))),
         stage := Half(v), memory := Some(v), asked := s.asked + [v])
    case Second => s.(disk := Commit(s.disk, SaveVoteV2(s.stage.vote)), stage := Full(s.stage.vote))
    case Ack => s.(acked := Some(s.stage.vote), stage := Ready)
    case Other(op) => s.(disk := Commit(s.disk, op))
    case Crash => s.(stage := Ready, memory := VoteOn(s.disk))
  }

  function FreshVoter(d: Disk): Voter { Voter(d, Ready, VoteOn(d), [], d.voteV2) }

  predicate VoteRun(d: Disk, ss: seq<Voter>, es: seq<VoteStep>) {
    && |ss| == |es| + 1 && ss[0] == FreshVoter(d)
    && forall i | 0 <= i < |es| :: VoteEnabled(ss[i], es[i]) && ss[i + 1] == VoteNext(ss[i], es[i])
  }

  /** Stored before the run, or passed to `save_vote` during it. */
  predicate Known(d: Disk, asked: seq<Vote>, v: Vote) {
    d.voteV2 == Some(v) || v in asked
  }

  /** Read from the legacy key: the term and candidate of a known vote, with the flag down. */
  predicate KnownUncommitted(d: Disk, asked: seq<Vote>, v: Vote) {
    && !v.committed
    && ((exists w <- asked :: (w.term, w.votedFor) == (v.term, v.votedFor))
        || d.vote == Some(VotingState(v.term, v.votedFor)))
  }

  predicate VoterOk(d: Disk, s: Voter) {
    // the acknowledged vote, the full vote on disk and the vote in memory are in this order
    && (s.acked.Some? ==> s.disk.voteV2.Some? && NotOlder(s.disk.voteV2.value, s.acked.value))
    && (s.disk.voteV2.Some? ==> s.memory.Some? && NotOlder(s.memory.value, s.disk.voteV2.value))
    && (s.stage.Ready? || s.memory == Some(s.stage.vote))
    && (s.stage.Ready? || s.stage.vote in s.asked)
    && (s.stage.Full? ==> s.disk.voteV2 == Some(s.stage.vote))
    // where each key's value came from
    && (s.disk.voteV2.Some? ==> Known(d, s.asked, s.disk.voteV2.value))
    && (s.disk.vote == d.vote ||
        exists w <- s.asked :: s.disk.vote == Some(VotingState(w.term, w.votedFor)))
  }

  lemma VoterStep(d: Disk, s: Voter, e: VoteStep)
    requires VoterOk(d, s) && VoteEnabled(s, e)
    ensures VoterOk(d, VoteNext(s, e))
  {
    if e.First? {
      var t := VoteNext(s, e);
      assert e.vote in t.asked;
      if s.disk.voteV2.Some? {
        NotOlderTransitive(s.disk.voteV2.value, s.memory.value, e.vote);
      }
    } else if e.Second? && s.acked.Some? {
      NotOlderTransitive(s.acked.value, s.disk.voteV2.value, s.stage.vote);
    }
  }

  lemma AckedStep(d: Disk, s: Voter, e: VoteStep)
    requires VoterOk(d, s) && VoteEnabled(s, e) && s.acked.Some?
    ensures VoteNext(s, e).acked.Some? && NotOlder(VoteNext(s, e).acked.value, s.acked.value)
  {
  }

  /** At every point of every run, with other saves and crashes anywhere, including between the two
      transactions, the node asking only for votes no older than the one it holds: the vote read after a reload is not
      older than any vote acknowledged up to then, nor than the full vote stored before the run; and
      whatever is read was stored before the run or was passed to `save_vote`, up to the committed
      flag when it comes from the legacy key. */
  lemma VoteNeverRegresses(d: Disk, ss: seq<Voter>, es: seq<VoteStep>, j: nat, k: nat)
    requires VoteRun(d, ss, es) && j <= k < |ss|
    ensures var s, r := ss[k], VoteOn(ss[k].disk);
            && (ss[j].acked.Some? ==> r.Some? && NotOlder(r.value, ss[j].acked.value))
            && (d.voteV2.Some? ==> r.Some? && NotOlder(r.value, d.voteV2.value))
            && (r.Some? ==> Known(d, s.asked, r.value)
                            || (s.disk.voteV2.None? && KnownUncommitted(d, s.asked, r.value)))
  {
    NoAckedLost(d, ss, es, j, k);
    NoAckedLost(d, ss, es, 0, k);
  }

  lemma NoAckedLost(d: Disk, ss: seq<Voter>, es: seq<VoteStep>, j: nat, k: nat)
    requires VoteRun(d, ss, es) && j <= k < |ss|
    ensures VoterOk(d, ss[k])
    ensures ss[j].acked.Some? ==> ss[k].disk.voteV2.Some? && NotOlder(ss[k].disk.voteV2.value, ss[j].acked.value)
  {
    for i := 0 to k
      invariant VoterOk(d, ss[i])
      invariant j <= i && ss[j].acked.Some? ==> ss[i].acked.Some? && NotOlder(ss[i].acked.value, ss[j].acked.value)
    {
      VoterStep(d, ss[i], es[i]);
      if j <= i && ss[j].acked.Some? {
        AckedStep(d, ss[i], es[i]);
        NotOlderTransitive(ss[j].acked.value, ss[i].acked.value, ss[i + 1].acked.value);
      }
    }
    if ss[j].acked.Some? {
      NotOlderTransitive(ss[j].acked.value, ss[k].acked.value, ss[k].disk.voteV2.value);
    }
  }

  /** A disk written before the full vote existed has no such protection: if the first save on it is cut
      between the two transactions, the vote read is still not older than the legacy one exactly when
      the new vote names a candidate and is for a later term or the same candidate. */
  lemma LegacyOnlyCrashExact(d: Disk, v: Vote)
    requires d.voteV2.None? && VoteOn(d).Some? && VoteEnabled(FreshVoter(d), First(v))
    ensures var r := VoteOn(VoteNext(VoteNext(FreshVoter(d), First(v)), Crash).disk);
            r.Some? && NotOlder(r.value, VoteOn(d).value) <==>
            v.votedFor.Some? && (v.term > VoteOn(d).value.term || v.votedFor == VoteOn(d).value.votedFor)
  {
  }

  /** The run in which a second vote is lost with the crash and a third one, for the same term and
      another candidate, is saved after it: the first vote is what the node remembers. */
  lemma LostVoteReplaced(d: Disk, a: Vote, b: Vote, c: Vote)
    requires d.voteV2 == Some(a) && NotOlder(b, a) && NotOlder(c, a)
    ensures var s1 := VoteNext(VoteNext(FreshVoter(d), First(b)), Crash);
            && VoteEnabled(FreshVoter(d), First(b)) && VoteEnabled(s1, First(c))
            && VoteOn(VoteNext(VoteNext(s1, First(c)), Second).disk) == Some(c)
  {
  }
}
