/** Governance of contract upgrades: a file of proposals and a separate history file, written one
    after the other, so that a crash can fall between the two. */
module Upgrade {
  import opened Wrappers

  datatype Status = Pending | Approved | Executed | Rejected | Expired {
    function Rank(): nat {
      match this
      case Pending => 0
      case Approved => 1
      case Executed => 2
      case _ => 3
    }
  }

  datatype Proposal = Proposal(
    id: string,
    contract: string,
    hash: string,
    description: string,
    proposer: string,
    approvals: seq<string>,
    threshold: nat,
    status: Status,
    network: string,
    executedAt: Option<string>)

  datatype Record = Record(
    contract: string,
    fromHash: string,
    toHash: string,
    proposalId: string,
    executedBy: string,
    network: string,
    timestamp: string)

  const UNKNOWN := "unknown"

  /** The two files. */
  datatype Files = Files(proposals: seq<Proposal>, history: seq<Record>)

  const EMPTY := Files([], [])

  /** What an execution meets outside the files: the operator's answer, the account, the signers and
      the deployed hash; and whether the process dies between the two saves. */
  datatype Surroundings = Surroundings(
    confirmed: bool,
    accountActive: bool,
    signersSuffice: bool,
    deployedHash: Option<string>,
    time: string,
    crash: bool)

  /** Wallets sign with a public key, and a key is all that is written down of them. */
  datatype Command =
    | Propose(contract: string, hash: string, description: string, key: string, network: string, threshold: nat)
    | Approve(id: string, network: string, key: string)
    | Execute(id: string, network: string, key: string, around: Surroundings)

  datatype Error = Duplicate | NotFound | WrongStatus | AlreadyApproved | AccountInactive | WeakSigners | Crashed
    | NoPreviousHash | UnknownHash

  /** A proposal is named after the first digits of its hash. */
  function ProposalId(hash: string): string
    requires |hash| >= 12
  {
    "prop-" + hash[..12]
  }

  predicate IsAt(p: Proposal, id: string, network: string) {
    p.id == id && p.network == network
  }

  /** The position of the first proposal of that id on that network. */
  function Find(ps: seq<Proposal>, id: string, network: string): (r: Option<nat>)
    ensures r.Some? ==> r.value < |ps| && IsAt(ps[r.value], id, network)
    ensures r.Some? ==> forall i :: 0 <= i < r.value ==> !IsAt(ps[i], id, network)
    ensures r.None? ==> forall i :: 0 <= i < |ps| ==> !IsAt(ps[i], id, network)
  {
    if ps == [] then None
    else if IsAt(ps[0], id, network) then Some(0)
    else
      var rest := Find(ps[1..], id, network);
      if rest.Some? then Some(rest.value + 1) else None
  }

  function NewProposal(c: Command): Proposal
    requires c.Propose? && |c.hash| >= 12
  {
    Proposal(ProposalId(c.hash), c.contract, c.hash, c.description, c.key, [c.key], c.threshold,
             if c.threshold <= 1 then Approved else Pending, c.network, None)
  }

  function WithApproval(p: Proposal, key: string): Proposal {
    p.(approvals := p.approvals + [key],
       status := if |p.approvals| + 1 >= p.threshold then Approved else p.status)
  }

  function NewRecord(p: Proposal, c: Command): Record
    requires c.Execute?
  {
    Record(p.contract, if c.around.deployedHash.Some? then c.around.deployedHash.value else UNKNOWN,
           p.hash, p.id, c.key, p.network, c.around.time)
  }

  /** The surroundings let the execution of a proposal go through to the saves. */
  predicate GoesThrough(p: Proposal, around: Surroundings) {
    around.confirmed && around.accountActive && (p.threshold > 1 ==> around.signersSuffice)
  }

  /** The command takes effect on the proposal at position `i`. */
  predicate Enabled(s: Files, c: Command, i: nat) {
    match c
    case Propose(_, hash, _, _, _, _) => false
    case Approve(id, network, key) =>
      Find(s.proposals, id, network) == Some(i)
      && s.proposals[i].status == Pending && key !in s.proposals[i].approvals
    case Execute(id, network, _, around) =>
      Find(s.proposals, id, network) == Some(i)
      && s.proposals[i].status == Approved && GoesThrough(s.proposals[i], around)
  }

  predicate Admissible(c: Command) {
    c.Propose? ==> |c.hash| == 64
  }

  /** The files after a command. */
  function Next(s: Files, c: Command): Files
    requires Admissible(c)
  {
    match c
    case Propose(_, hash, _, _, _, _) =>
      if exists p :: p in s.proposals && p.id == ProposalId(hash) then s
      else s.(proposals := s.proposals + [NewProposal(c)])
    case Approve(id, network, key) =>
      var at := Find(s.proposals, id, network);
      if at.Some? && Enabled(s, c, at.value)
      then s.(proposals := s.proposals[at.value := WithApproval(s.proposals[at.value], key)])
      else s
    case Execute(id, network, _, around) =>
      var at := Find(s.proposals, id, network);
      if at.Some? && Enabled(s, c, at.value) then
        var p := s.proposals[at.value];
        var recorded := s.(history := s.history + [NewRecord(p, c)]);
        if around.crash then recorded
        else recorded.(proposals := s.proposals[at.value := p.(status := Executed, executedAt := Some(around.time))])
      else s
  }

  // ---------------------------------------------------------------- one command

  /** A new proposal: approved by its proposer, and by that alone if no more is asked for. */
  predicate IsFresh(p: Proposal, c: Command)
    requires c.Propose? && |c.hash| >= 12
  {
    && p.id == "prop-" + c.hash[..12] && p.hash == c.hash && p.contract == c.contract
    && p.description == c.description && p.network == c.network && p.threshold == c.threshold
    && p.proposer == c.key && p.approvals == [c.key] && p.executedAt == None
    && (p.status == Approved <==> c.threshold <= 1) && (p.status == Pending <==> c.threshold > 1)
  }

  /** One more approval, which decides when it is enough. */
  predicate IsApprovedBy(p: Proposal, q: Proposal, key: string) {
    && q.approvals == p.approvals + [key]
    && q.status == (if |q.approvals| >= p.threshold then Approved else p.status)
    && q == p.(approvals := q.approvals, status := q.status)
  }

  /** The record of an execution tells what was deployed before, if that is known, and what now. */
  predicate Records(r: Record, p: Proposal, key: string, around: Surroundings) {
    && r.contract == p.contract && r.network == p.network && r.proposalId == p.id
    && r.toHash == p.hash && r.executedBy == key && r.timestamp == around.time
    && (around.deployedHash.Some? ==> r.fromHash == around.deployedHash.value)
    && (around.deployedHash.None? ==> r.fromHash == "unknown")
  }

  /** What an execution that takes effect does: one record at the end of the history, and, without a crash,
      the proposal marked. It takes effect exactly on the first approved proposal of that identifier and
      network, confirmed, with an active account, and with enough signers if several are asked for. */
  lemma ExecuteRecords(s: Files, id: string, network: string, key: string, around: Surroundings, i: nat)
    requires i < |s.proposals| && s.proposals[i].id == id && s.proposals[i].network == network
    requires forall j | 0 <= j < i :: !(s.proposals[j].id == id && s.proposals[j].network == network)
    ensures var t := Next(s, Execute(id, network, key, around));
      var p := s.proposals[i];
      var effective := p.status == Approved && around.confirmed && around.accountActive
        && (p.threshold <= 1 || around.signersSuffice);
      if !effective then t == s else
        && |t.history| == |s.history| + 1 && t.history[..|s.history|] == s.history
        && Records(t.history[|s.history|], p, key, around)
        && t.proposals == if around.crash then s.proposals
                          else s.proposals[i := p.(status := Executed, executedAt := Some(around.time))]
  {
    assert Find(s.proposals, id, network) == Some(i);
  }

  class UpgradeStore {
    var proposals: seq<Proposal>
    var history: seq<Record>

    function State(): Files
      reads this
    {
      Files(proposals, history)
    }

    constructor ()
      ensures State() == EMPTY
    {
      proposals, history := [], [];
    }

    method FindProposal(id: string, network: string) returns (r: Option<nat>)
      ensures r == Find(proposals, id, network)
    {
      for i := 0 to |proposals|
        invariant forall j :: 0 <= j < i ==> !IsAt(proposals[j], id, network)
      {
        if IsAt(proposals[i], id, network) {
          return Some(i);
        }
      }
      r := None;
    }

    method HandlePropose(c: Command) returns (r: Result<string, Error>)
      requires c.Propose? && Admissible(c)
      modifies this
      ensures State() == Next(old(State()), c)
      ensures r.Success? <==> State() != old(State())
      ensures r == if State() == old(State()) then Failure(Duplicate) else Success(ProposalId(c.hash))
      ensures r.Failure? <==> exists p :: p in old(proposals) && p.id == "prop-" + c.hash[..12]
      ensures r.Success? ==>
        && history == old(history) && |proposals| == |old(proposals)| + 1
        && proposals == old(proposals) + [proposals[|proposals| - 1]]
        && IsFresh(proposals[|proposals| - 1], c)
    {
      var id := ProposalId(c.hash);
      for i := 0 to |proposals|
        invariant forall j :: 0 <= j < i ==> proposals[j].id != id
      {
        if proposals[i].id == id {
          assert proposals[i] in proposals;
          return Failure(Duplicate);
        }
      }
      assert |proposals + [NewProposal(c)]| == |proposals| + 1;
      proposals := proposals + [NewProposal(c)];
      r := Success(id);
    }

    method HandleApprove(id: string, network: string, key: string) returns (r: Result<Status, Error>)
      modifies this
      ensures State() == Next(old(State()), Approve(id, network, key))
      ensures var was := old(proposals);
        var at := Find(was, id, network);
        r ==
          if at.None? then Failure(NotFound)
          else if was[at.value].status != Pending then Failure(WrongStatus)
          else if key in was[at.value].approvals then Failure(AlreadyApproved)
          else Success(WithApproval(was[at.value], key).status)
      ensures r.Success? <==> exists i: nat :: Enabled(old(State()), Approve(id, network, key), i)
      ensures r.Success? ==>
        && history == old(history) && |proposals| == |old(proposals)|
        && var at := Find(old(proposals), id, network);
        at.Some? && forall i | 0 <= i < |proposals| ::
          if i == at.value then IsApprovedBy(old(proposals)[i], proposals[i], key)
          else proposals[i] == old(proposals)[i]
    {
      var at := FindProposal(id, network);
      if at.None? { return Failure(NotFound); }
      var p := proposals[at.value];
      if p.status != Pending { return Failure(WrongStatus); }
      if key in p.approvals { return Failure(AlreadyApproved); }
      assert Enabled(State(), Approve(id, network, key), at.value);
      p := p.(approvals := p.approvals + [key]);
      if |p.approvals| >= p.threshold {
        p := p.(status := Approved);
      }
      proposals := proposals[at.value := p];
      r := Success(p.status);
    }

    /** The history is saved before the proposals; a crash in between leaves the proposal Approved. */
    method HandleExecute(id: string, network: string, key: string, around: Surroundings)
      returns (r: Result<bool, Error>)
      modifies this
      ensures State() == Next(old(State()), Execute(id, network, key, around))
      ensures var was := old(proposals);
        var at := Find(was, id, network);
        r ==
          if at.None? then Failure(NotFound)
          else if was[at.value].status != Approved then Failure(WrongStatus)
          else if !around.confirmed then Success(false)
          else if !around.accountActive then Failure(AccountInactive)
          else if was[at.value].threshold > 1 && !around.signersSuffice then Failure(WeakSigners)
          else if around.crash then Failure(Crashed)
          else Success(true)
      ensures r == Success(true) <==>
        !around.crash && exists i: nat :: Enabled(old(State()), Execute(id, network, key, around), i)
      ensures r == Success(true) || r == Failure(Crashed) ==>
        && var at := Find(old(proposals), id, network);
        at.Some? && |history| == |old(history)| + 1 && history[..|old(history)|] == old(history)
        && Records(history[|history| - 1], old(proposals)[at.value], key, around)
        && proposals == if around.crash then old(proposals) else
             old(proposals)[at.value := old(proposals)[at.value].(status := Executed, executedAt := Some(around.time))]
    {
      ghost var c := Execute(id, network, key, around);
      var at := FindProposal(id, network);
      if at.None? { return Failure(NotFound); }
      var p := proposals[at.value];
      if p.status != Approved { return Failure(WrongStatus); }
      if !around.confirmed { return Success(false); }
      if !around.accountActive { return Failure(AccountInactive); }
      if p.threshold > 1 && !around.signersSuffice { return Failure(WeakSigners); }
      assert Enabled(State(), c, at.value);
      var fromHash := if around.deployedHash.Some? then around.deployedHash.value else UNKNOWN;
      history := history + [Record(p.contract, fromHash, p.hash, p.id, key, p.network, around.time)];
      if around.crash { return Failure(Crashed); }
      proposals := proposals[at.value := p.(status := Executed, executedAt := Some(around.time))];
      r := Success(true);
    }

    /** The hash to roll back to: the one asked for, or what the latest upgrade replaced. Either must
        occur in the history of the contract; the default always does. */
    method HandleRollback(contract: string, network: string, toHash: Option<string>) returns (r: Result<string, Error>)
      ensures toHash.Some? ==>
        r == if Mentioned(history, contract, network, toHash.value) then Success(toHash.value) else Failure(UnknownHash)
      ensures toHash.None? ==> var latest := Latest(history, contract, network);
        r == if latest.Some? && latest.value.fromHash != UNKNOWN then Success(latest.value.fromHash)
             else Failure(NoPreviousHash)
      ensures toHash.None? ==> forall k | LatestAt(history, contract, network, k) ::
        r == if history[k].fromHash != "unknown" then Success(history[k].fromHash) else Failure(NoPreviousHash)
    {
      hide LatestAt, Mentions, Latest;
      LatestIff(history, contract, network);
      var target;
      match toHash {
        case Some(hash) => target := hash;
        case None =>
          var latest := FindLatest(contract, network);
          if latest.None? || latest.value.fromHash == UNKNOWN { return Failure(NoPreviousHash); }
          target := latest.value.fromHash;
          LatestIsMentioned(history, contract, network);
      }
      for i := 0 to |history|
        invariant forall j :: 0 <= j < i ==> !Mentions(history[j], contract, network, target)
      {
        if Mentions(history[i], contract, network, target) {
          return Success(target);
        }
      }
      r := Failure(UnknownHash);
    }

    method FindLatest(contract: string, network: string) returns (r: Option<Record>)
      ensures r == Latest(history, contract, network)
    {
      var i := |history|;
      assert history[..i] == history;
      while i > 0
        invariant 0 <= i <= |history|
        invariant Latest(history, contract, network) == Latest(history[..i], contract, network)
      {
        assert history[..i][..i - 1] == history[..i - 1];
        i := i - 1;
        if history[i].contract == contract && history[i].network == network {
          return Some(history[i]);
        }
      }
      r := None;
    }
  }

  // ---------------------------------------------------------------- rollback targets

  function Latest(history: seq<Record>, contract: string, network: string): Option<Record> {
    if history == [] then None
    else if history[|history| - 1].contract == contract && history[|history| - 1].network == network
    then Some(history[|history| - 1])
    else Latest(history[..|history| - 1], contract, network)
  }

  predicate Mentions(r: Record, contract: string, network: string, hash: string) {
    r.contract == contract && r.network == network && (r.toHash == hash || r.fromHash == hash)
  }

  predicate Mentioned(history: seq<Record>, contract: string, network: string, hash: string) {
    exists i :: 0 <= i < |history| && Mentions(history[i], contract, network, hash)
  }

  /** The latest record of a contract on a network: none of that contract and network comes after it. */
  ghost predicate LatestAt(history: seq<Record>, contract: string, network: string, k: int) {
    && 0 <= k < |history| && history[k].contract == contract && history[k].network == network
    && forall j | k < j < |history| :: !(history[j].contract == contract && history[j].network == network)
  }

  lemma {:induction false} LatestIs(history: seq<Record>, contract: string, network: string, k: nat)
    requires LatestAt(history, contract, network, k)
    ensures Latest(history, contract, network) == Some(history[k])
  {
    var last := |history| - 1;
    if k < last {
      LatestIs(history[..last], contract, network, k);
    }
  }

  lemma {:induction false} LatestExists(history: seq<Record>, contract: string, network: string)
    ensures Latest(history, contract, network) == None || exists k :: LatestAt(history, contract, network, k)
  {
    if history != [] {
      var last := |history| - 1;
      if history[last].contract == contract && history[last].network == network {
        assert LatestAt(history, contract, network, last);
      } else {
        LatestExists(history[..last], contract, network);
        if k :| LatestAt(history[..last], contract, network, k) { assert LatestAt(history, contract, network, k); }
      }
    }
  }

  /** The record that rollback starts from is the latest one; there is none exactly when nothing matches. */
  lemma LatestIff(history: seq<Record>, contract: string, network: string)
    ensures forall k | LatestAt(history, contract, network, k) ::
      Latest(history, contract, network) == Some(history[k])
    ensures Latest(history, contract, network) == None <==> forall k :: !LatestAt(history, contract, network, k)
    ensures (exists k :: LatestAt(history, contract, network, k))
      <==> exists r :: r in history && r.contract == contract && r.network == network
  {
    hide Latest;
    forall k | LatestAt(history, contract, network, k)
      ensures Latest(history, contract, network) == Some(history[k])
    {
      LatestIs(history, contract, network, k);
    }
    LatestExists(history, contract, network);
    LatestMatch(history, contract, network);
  }

  lemma {:induction false} LatestMatch(history: seq<Record>, contract: string, network: string)
    ensures (exists r :: r in history && r.contract == contract && r.network == network)
      ==> exists k :: LatestAt(history, contract, network, k)
  {
    if history != [] {
      var last := |history| - 1;
      if history[last].contract == contract && history[last].network == network {
        assert LatestAt(history, contract, network, last);
      } else {
        LatestMatch(history[..last], contract, network);
        assert history == history[..last] + [history[last]];
        if k :| LatestAt(history[..last], contract, network, k) { assert LatestAt(history, contract, network, k); }
      }
    }
  }

  /** Across the two commands: after an execution that takes effect, the default rollback goes back to the
      hash that was deployed before it, if that was known. */
  lemma RollbackUndoesExecute(s: Files, id: string, network: string, key: string, around: Surroundings, i: nat)
    requires Enabled(s, Execute(id, network, key, around), i)
    ensures var t := Next(s, Execute(id, network, key, around));
      var latest := Latest(t.history, s.proposals[i].contract, network);
      && latest.Some? && latest.value.toHash == s.proposals[i].hash
      && latest.value.fromHash == (if around.deployedHash.Some? then around.deployedHash.value else "unknown")
  {
    var p := s.proposals[i];
    var t := Next(s, Execute(id, network, key, around));
    ExecuteRecords(s, id, network, key, around, i);
    LatestIff(t.history, p.contract, network);
    assert LatestAt(t.history, p.contract, network, |s.history|);
  }

  /** The default rollback target always passes the check that it occurs in the history. */
  lemma {:induction false} LatestIsMentioned(history: seq<Record>, contract: string, network: string)
    ensures var latest := Latest(history, contract, network);
      latest.Some? ==> Mentioned(history, contract, network, latest.value.fromHash)
  {
    if history != [] {
      var init, last := history[..|history| - 1], history[|history| - 1];
      if last.contract == contract && last.network == network {
        assert Mentions(history[|history| - 1], contract, network, last.fromHash);
      } else {
        LatestIsMentioned(init, contract, network);
        var latest := Latest(init, contract, network);
        if latest.Some? {
          var i :| 0 <= i < |init| && Mentions(init[i], contract, network, latest.value.fromHash);
          assert Mentions(history[i], contract, network, latest.value.fromHash);
        }
      }
    }
  }
}
