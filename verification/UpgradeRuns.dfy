/** What every sequence of upgrade commands keeps, crashes included. */
module UpgradeRuns {
  import opened Upgrade
  import Wallets
  import opened Wrappers

  ghost predicate AllAdmissible(cs: seq<Command>) {
    forall c :: c in cs ==> Admissible(c)
  }

  function Run(s: Files, cs: seq<Command>): Files
    requires AllAdmissible(cs)
  {
    if cs == [] then s else
      assert cs[|cs| - 1] in cs;
      Next(Run(s, cs[..|cs| - 1]), cs[|cs| - 1])
  }

  // ---------------------------------------------------------------- the state of every proposal

  function Quorum(p: Proposal): nat {
    if p.threshold == 0 then 1 else p.threshold
  }

  /** Approvals are by distinct public keys, the proposer's first; a proposal is pending exactly while
      approvals are short, and past that it has exactly as many as it needs. */
  ghost predicate WellGoverned(p: Proposal) {
    && |p.hash| == 64 && p.id == ProposalId(p.hash)
    && p.approvals != [] && p.approvals[0] == p.proposer
    && (forall i, j :: 0 <= i < j < |p.approvals| ==> p.approvals[i] != p.approvals[j])
    && p.status in {Pending, Approved, Executed}
    && (p.status == Pending <==> |p.approvals| < p.threshold)
    && (p.status != Pending ==> |p.approvals| == Quorum(p))
    && (p.executedAt.Some? <==> p.status == Executed)
  }

  ghost predicate IdsDistinct(ps: seq<Proposal>) {
    forall i, j :: 0 <= i < j < |ps| ==> ps[i].id != ps[j].id
  }

  ghost predicate Governed(ps: seq<Proposal>) {
    IdsDistinct(ps) && forall i :: 0 <= i < |ps| ==> WellGoverned(ps[i])
  }

  /** A record tells of a proposal that was approved at least, and repeats its contract, hash and
      network. */
  ghost predicate Tells(r: Record, p: Proposal) {
    && r.proposalId == p.id && r.contract == p.contract && r.toHash == p.hash && r.network == p.network
    && p.status in {Approved, Executed}
  }

  ghost predicate Sound(s: Files) {
    && Governed(s.proposals)
    && (forall k :: 0 <= k < |s.history| ==> Told(s, s.history[k]))
  }

  ghost predicate Told(s: Files, r: Record) {
    exists i :: 0 <= i < |s.proposals| && Tells(r, s.proposals[i])
  }

  /** `p` may have become `q`: only approvals, status and time of execution move, and only forward. */
  ghost predicate Advances(p: Proposal, q: Proposal) {
    && q == p.(approvals := q.approvals, status := q.status, executedAt := q.executedAt)
    && p.approvals <= q.approvals
    && p.status.Rank() <= q.status.Rank()
    && (p.status != Pending ==> q.approvals == p.approvals)
    && (p.status == Executed ==> q == p)
  }

  ghost predicate Evolves(s: Files, t: Files) {
    && s.history <= t.history
    && |s.proposals| <= |t.proposals|
    && forall i :: 0 <= i < |s.proposals| ==> Advances(s.proposals[i], t.proposals[i])
  }

  lemma ToldLater(s: Files, t: Files, r: Record)
    requires Told(s, r) && Evolves(s, t)
    requires forall i :: 0 <= i < |t.proposals| ==> WellGoverned(t.proposals[i])
    ensures Told(t, r)
  {
    var i :| 0 <= i < |s.proposals| && Tells(r, s.proposals[i]);
    assert Advances(s.proposals[i], t.proposals[i]) && WellGoverned(t.proposals[i]);
    assert Tells(r, t.proposals[i]);
  }

  lemma ApprovalKeepsGovernance(p: Proposal, key: string)
    requires WellGoverned(p) && p.status == Pending && key !in p.approvals
    ensures WellGoverned(WithApproval(p, key)) && Advances(p, WithApproval(p, key))
  {
    var q := WithApproval(p, key);
    forall i, j | 0 <= i < j < |q.approvals| ensures q.approvals[i] != q.approvals[j] {
      if j == |p.approvals| { assert p.approvals[i] in p.approvals; }
    }
  }

  lemma UpdateGoverns(s: Files, at: nat, q: Proposal, history: seq<Record>)
    requires Governed(s.proposals) && at < |s.proposals|
    requires WellGoverned(q) && Advances(s.proposals[at], q)
    ensures Governed(s.proposals[at := q])
    ensures Evolves(s, Files(s.proposals[at := q], s.history + history))
  {
    hide WellGoverned;
  }

  lemma NewProposalGoverned(c: Command)
    requires c.Propose? && Admissible(c)
    ensures WellGoverned(NewProposal(c))
  {
  }

  lemma AppendGoverns(s: Files, p: Proposal)
    requires Governed(s.proposals) && WellGoverned(p) && forall q :: q in s.proposals ==> q.id != p.id
    ensures Governed(s.proposals + [p]) && Evolves(s, s.(proposals := s.proposals + [p]))
  {
    hide WellGoverned;
    assert forall i :: 0 <= i < |s.proposals| ==> s.proposals[i] in s.proposals;
  }

  /** One command keeps every proposal well governed and moves each only forward. */
  lemma NextGoverns(s: Files, c: Command)
    requires Governed(s.proposals) && Admissible(c)
    ensures Governed(Next(s, c).proposals) && Evolves(s, Next(s, c))
  {
    match c
    case Propose(_, hash, _, _, _, _) =>
      if !exists p :: p in s.proposals && p.id == ProposalId(hash) {
        NewProposalGoverned(c);
        AppendGoverns(s, NewProposal(c));
      }
    case Approve(id, network, key) =>
      var at := Find(s.proposals, id, network);
      if at.Some? && Enabled(s, c, at.value) {
        ApprovalKeepsGovernance(s.proposals[at.value], key);
        UpdateGoverns(s, at.value, WithApproval(s.proposals[at.value], key), []);
        assert s.history + [] == s.history;
      }
    case Execute(id, network, _, around) =>
      var at := Find(s.proposals, id, network);
      if at.Some? && Enabled(s, c, at.value) && !around.crash {
        var p := s.proposals[at.value];
        UpdateGoverns(s, at.value, p.(status := Executed, executedAt := Some(around.time)), [NewRecord(p, c)]);
      }
  }

  lemma NextSound(s: Files, c: Command)
    requires Sound(s) && Admissible(c)
    ensures Sound(Next(s, c))
  {
    NextGoverns(s, c);
    var t := Next(s, c);
    forall k | 0 <= k < |t.history| ensures Told(t, t.history[k]) {
      if k < |s.history| {
        ToldLater(s, t, s.history[k]);
      } else {
        var at := Find(s.proposals, c.id, c.network).value;
        assert Tells(t.history[k], t.proposals[at]);
      }
    }
  }

  /** Every reachable state is sound. */
  lemma {:induction false} RunSound(s: Files, cs: seq<Command>)
    requires Sound(s) && AllAdmissible(cs)
    ensures Sound(Run(s, cs))
  {
    if cs != [] {
      assert cs[|cs| - 1] in cs;
      RunSound(s, cs[..|cs| - 1]);
      NextSound(Run(s, cs[..|cs| - 1]), cs[|cs| - 1]);
    }
  }

  lemma EvolvesTransitive(s: Files, t: Files, u: Files)
    requires Evolves(s, t) && Evolves(t, u)
    ensures Evolves(s, u)
  {
    forall i | 0 <= i < |s.proposals| ensures Advances(s.proposals[i], u.proposals[i]) {
      assert Advances(s.proposals[i], t.proposals[i]) && Advances(t.proposals[i], u.proposals[i]);
    }
  }

  /** Over every run the history only grows at its end and every proposal only moves forward: from
      Pending to Approved to Executed, never back, with approvals only added while it is Pending. */
  lemma {:induction false} RunEvolves(s: Files, cs: seq<Command>)
    requires Sound(s) && AllAdmissible(cs)
    ensures Evolves(s, Run(s, cs))
  {
    if cs != [] {
      var init := cs[..|cs| - 1];
      assert cs[|cs| - 1] in cs;
      RunEvolves(s, init);
      RunSound(s, init);
      NextGoverns(Run(s, init), cs[|cs| - 1]);
      EvolvesTransitive(s, Run(s, init), Run(s, cs));
    }
  }

  /** The same without ranks: a proposal only becomes Approved from Pending and Executed from Approved, and what
      it was approved or executed with stays. */
  lemma NeverBack(s: Files, cs: seq<Command>, i: nat)
    requires Sound(s) && AllAdmissible(cs) && i < |s.proposals|
    ensures |s.proposals| <= |Run(s, cs).proposals|
    ensures var p, q := s.proposals[i], Run(s, cs).proposals[i];
      && q.status in {Pending, Approved, Executed}
      && (q.status == Pending ==> p.status == Pending)
      && (p.status == Approved ==> q.status in {Approved, Executed} && q.approvals == p.approvals)
      && (p.status == Executed ==> q == p)
      && q.id == p.id && q.hash == p.hash && q.contract == p.contract && q.network == p.network
      && q.threshold == p.threshold
  {
    RunSound(s, cs);
    RunEvolves(s, cs);
    assert Advances(s.proposals[i], Run(s, cs).proposals[i]);
    assert WellGoverned(Run(s, cs).proposals[i]);
  }

  /** Whatever is approved or executed was approved with as many different public keys as it needs. */
  lemma QuorumOfDistinctKeys(s: Files, i: nat)
    requires Sound(s) && i < |s.proposals| && s.proposals[i].status != Pending
    ensures |set k | k in s.proposals[i].approvals| == Quorum(s.proposals[i])
  {
    DistinctSize(s.proposals[i].approvals);
  }

  /** The wallets behind a list of keys. */
  ghost function Approvers(keys: seq<string>, owner: string -> string): set<string> {
    set k | k in keys :: owner(k)
  }

  ghost predicate OneKeyEach(keys: seq<string>, owner: string -> string) {
    forall j, k | j in keys && k in keys && j != k :: owner(j) != owner(k)
  }

  /** It was approved by as many different wallets as it needs exactly when no two of the keys belong to
      one wallet, as an earlier and a later key of it. */
  lemma QuorumOfDistinctWalletsIff(s: Files, i: nat, owner: string -> string)
    requires Sound(s) && i < |s.proposals| && s.proposals[i].status != Pending
    ensures |Approvers(s.proposals[i].approvals, owner)| == Quorum(s.proposals[i])
      <==> OneKeyEach(s.proposals[i].approvals, owner)
  {
    ApproversSize(s.proposals[i].approvals, owner);
  }

  lemma OneMoreApprover(keys: seq<string>, last: string, owner: string -> string)
    requires last !in keys
    ensures Approvers(keys + [last], owner) == Approvers(keys, owner) + {owner(last)}
    ensures OneKeyEach(keys + [last], owner) <==> OneKeyEach(keys, owner) && owner(last) !in Approvers(keys, owner)
  {
    var all := keys + [last];
    assert forall k :: k in all <==> k in keys || k == last;
    if OneKeyEach(all, owner) {
      assert forall k | k in keys :: k in all && last in all && k != last && owner(k) != owner(last);
    }
  }

  lemma {:induction false} ApproversSize(keys: seq<string>, owner: string -> string)
    requires forall i, j :: 0 <= i < j < |keys| ==> keys[i] != keys[j]
    ensures |Approvers(keys, owner)| <= |keys|
    ensures |Approvers(keys, owner)| == |keys| <==> OneKeyEach(keys, owner)
  {
    if keys != [] {
      hide Approvers, OneKeyEach;
      var init, last := keys[..|keys| - 1], keys[|keys| - 1];
      assert keys == init + [last];
      ApproversSize(init, owner);
      OneMoreApprover(init, last, owner);
      if owner(last) in Approvers(init, owner) {
        assert Approvers(init, owner) + {owner(last)} == Approvers(init, owner);
      }
    }
  }

  /** One wallet can be a quorum of two: it proposes, rotates its key, and approves. */
  lemma RotatedWalletApprovesTwice(w: Wallets.Wallet, e: Wallets.Effect, contract: string, hash: string,
                                   description: string, network: string)
    requires e.Rotate? && e.publicKey != w.publicKey && w.rotationHistory == [] && |hash| == 64
    ensures
      var rotated := Wallets.Rotated(w, e);
      var cs := [Propose(contract, hash, description, w.publicKey, network, 2),
                 Approve(ProposalId(hash), network, rotated.publicKey)];
      && AllAdmissible(cs) && |Run(EMPTY, cs).proposals| == 1
      && Run(EMPTY, cs).proposals[0].status == Approved
      && Run(EMPTY, cs).proposals[0].approvals == Wallets.KeyChain(rotated)
  {
    var rotated := Wallets.Rotated(w, e);
    Wallets.RotatedChain(w, e);
    assert Wallets.KeyChain(w) == [w.publicKey];
    hide Wallets.Rotated, Wallets.KeyChain, ProposalId;
    var propose := Propose(contract, hash, description, w.publicKey, network, 2);
    var approve := Approve(ProposalId(hash), network, e.publicKey);
    var cs := [propose, approve];
    assert rotated.publicKey == e.publicKey by { RotatedKey(w, e); }
    assert cs[..1] == [propose] && [propose][..0] == [];
    var first := Next(EMPTY, propose);
    assert first.proposals == [NewProposal(propose)] && Run(EMPTY, [propose]) == Next(Run(EMPTY, []), propose);
    assert Find(first.proposals, approve.id, network) == Some(0);
    assert Run(EMPTY, cs) == Next(first, approve);
    assert [w.publicKey] + [e.publicKey] == Wallets.KeyChain(rotated);
  }

  lemma RotatedKey(w: Wallets.Wallet, e: Wallets.Effect)
    requires e.Rotate?
    ensures Wallets.Rotated(w, e).publicKey == e.publicKey
  {
  }

  lemma {:induction false} DistinctSize(xs: seq<string>)
    requires forall i, j :: 0 <= i < j < |xs| ==> xs[i] != xs[j]
    ensures |set x | x in xs| == |xs|
  {
    if xs != [] {
      var init, last := xs[..|xs| - 1], xs[|xs| - 1];
      DistinctSize(init);
      assert (set x | x in xs) == (set x | x in init) + {last};
    }
  }

  // ---------------------------------------------------------------- records and executions

  function RecordsOf(history: seq<Record>, id: string): nat {
    if history == [] then 0
    else RecordsOf(history[..|history| - 1], id) + if history[|history| - 1].proposalId == id then 1 else 0
  }

  function ExecutedOf(ps: seq<Proposal>, id: string): nat {
    if ps == [] then 0
    else ExecutedOf(ps[..|ps| - 1], id) + if ps[|ps| - 1].id == id && ps[|ps| - 1].status == Executed then 1 else 0
  }

  /** The command executes the proposal and dies between the two saves. */
  predicate CrashesOn(s: Files, c: Command, id: string) {
    && c.Execute? && c.id == id && c.around.crash
    && var at := Find(s.proposals, c.id, c.network);
    at.Some? && Enabled(s, c, at.value)
  }

  function Crashes(s: Files, cs: seq<Command>, id: string): nat
    requires AllAdmissible(cs)
  {
    if cs == [] then 0 else
      var init := cs[..|cs| - 1];
      Crashes(s, init, id) + if CrashesOn(Run(s, init), cs[|cs| - 1], id) then 1 else 0
  }

  lemma {:induction false} ExecutedUpdate(ps: seq<Proposal>, i: nat, q: Proposal, id: string)
    requires i < |ps| && q.id == ps[i].id
    ensures ExecutedOf(ps[i := q], id) == ExecutedOf(ps, id)
      - (if ps[i].id == id && ps[i].status == Executed then 1 else 0)
      + (if q.id == id && q.status == Executed then 1 else 0)
  {
    var init := ps[..|ps| - 1];
    if i < |init| {
      assert ps[i := q][..|ps| - 1] == init[i := q];
      ExecutedUpdate(init, i, q, id);
    } else {
      assert ps[i := q][..|ps| - 1] == init;
    }
  }

  lemma NextCounts(s: Files, c: Command, id: string)
    requires Admissible(c)
    ensures var t := Next(s, c);
      RecordsOf(t.history, id) - ExecutedOf(t.proposals, id)
      == RecordsOf(s.history, id) - ExecutedOf(s.proposals, id) + if CrashesOn(s, c, id) then 1 else 0
  {
    var t := Next(s, c);
    match c
    case Propose(_, _, _, _, _, _) =>
      if t != s { assert t.proposals[..|s.proposals|] == s.proposals; }
    case Approve(pid, network, key) =>
      var at := Find(s.proposals, pid, network);
      if at.Some? && Enabled(s, c, at.value) {
        ExecutedUpdate(s.proposals, at.value, t.proposals[at.value], id);
      }
    case Execute(pid, network, _, around) =>
      var at := Find(s.proposals, pid, network);
      if at.Some? && Enabled(s, c, at.value) {
        assert t.history[..|s.history|] == s.history;
        if !around.crash { ExecutedUpdate(s.proposals, at.value, t.proposals[at.value], id); }
      }
  }

  /** The bookkeeping of every run: a proposal has one record for its execution, if it is Executed, and
      one for each crash that came between the two saves. */
  lemma {:induction false} RecordsAccountedFor(cs: seq<Command>, id: string)
    requires AllAdmissible(cs)
    ensures RecordsOf(Run(EMPTY, cs).history, id)
         == ExecutedOf(Run(EMPTY, cs).proposals, id) + Crashes(EMPTY, cs, id)
  {
    if cs != [] {
      assert cs[|cs| - 1] in cs;
      RecordsAccountedFor(cs[..|cs| - 1], id);
      NextCounts(Run(EMPTY, cs[..|cs| - 1]), cs[|cs| - 1], id);
    }
  }

  lemma {:induction false} ExecutedOnce(ps: seq<Proposal>, i: nat)
    requires IdsDistinct(ps) && i < |ps|
    ensures ExecutedOf(ps, ps[i].id) == if ps[i].status == Executed then 1 else 0
  {
    var init := ps[..|ps| - 1];
    if i < |init| {
      ExecutedOnce(init, i);
    } else {
      NoneExecuted(init, ps[i].id);
    }
  }

  lemma {:induction false} NoneExecuted(ps: seq<Proposal>, id: string)
    requires forall i :: 0 <= i < |ps| ==> ps[i].id != id
    ensures ExecutedOf(ps, id) == 0
  {
    if ps != [] { NoneExecuted(ps[..|ps| - 1], id); }
  }

  /** Proposal by proposal: the records are its execution and its crashes, so Executed always leaves a
      record; and without a crash there is exactly one for an Executed proposal and none otherwise. */
  lemma ExecutionsRecorded(cs: seq<Command>, i: nat)
    requires AllAdmissible(cs) && i < |Run(EMPTY, cs).proposals|
    ensures var s := Run(EMPTY, cs); var p := s.proposals[i];
      && RecordsOf(s.history, p.id) == Crashes(EMPTY, cs, p.id) + (if p.status == Executed then 1 else 0)
      && (p.status == Executed ==> RecordsOf(s.history, p.id) >= 1)
      && (Crashes(EMPTY, cs, p.id) == 0 ==> (RecordsOf(s.history, p.id) == 1 <==> p.status == Executed))
  {
    RunSound(EMPTY, cs);
    var s := Run(EMPTY, cs);
    RecordsAccountedFor(cs, s.proposals[i].id);
    ExecutedOnce(s.proposals, i);
  }

  /** Every record of a run belongs to exactly one proposal and repeats its contract, hash and
      network; a run without crashes only has records of Executed proposals. */
  lemma RecordsMatchProposals(cs: seq<Command>, k: nat)
    requires AllAdmissible(cs) && k < |Run(EMPTY, cs).history|
    ensures var s := Run(EMPTY, cs);
      exists i ::
        && 0 <= i < |s.proposals| && Tells(s.history[k], s.proposals[i])
        && (forall j :: 0 <= j < |s.proposals| && Tells(s.history[k], s.proposals[j]) ==> j == i)
        && (Crashes(EMPTY, cs, s.proposals[i].id) == 0 ==> s.proposals[i].status == Executed)
  {
    RunSound(EMPTY, cs);
    var s := Run(EMPTY, cs);
    assert Told(s, s.history[k]);
    var i :| 0 <= i < |s.proposals| && Tells(s.history[k], s.proposals[i]);
    ExecutionsRecorded(cs, i);
    RecordCounted(s.history, k);
  }

  lemma {:induction false} RecordCounted(history: seq<Record>, k: nat)
    requires k < |history|
    ensures RecordsOf(history, history[k].proposalId) >= 1
  {
    if k < |history| - 1 { RecordCounted(history[..|history| - 1], k); }
  }

  // ---------------------------------------------------------------- what is counted

  ghost predicate IsRecordOf(history: seq<Record>, k: int, id: string) {
    0 <= k < |history| && history[k].proposalId == id
  }

  ghost function Places(history: seq<Record>, id: string): set<int> {
    set k | 0 <= k < |history| && IsRecordOf(history, k, id)
  }

  lemma PlacesGrow(history: seq<Record>, r: Record, id: string)
    ensures Places(history + [r], id) == Places(history, id) + (if r.proposalId == id then {|history|} else {})
    ensures |history| !in Places(history, id)
  {
  }

  /** The number of records is the number of places in the history that name the proposal. */
  lemma {:induction false} RecordsAreCounted(history: seq<Record>, id: string)
    ensures RecordsOf(history, id) == |Places(history, id)|
  {
    if history == [] {
      assert Places(history, id) == {};
    } else {
      var init, last := history[..|history| - 1], history[|history| - 1];
      RecordsAreCounted(init, id);
      PlacesGrow(init, last, id);
      assert history == init + [last];
      hide Places;
    }
  }

  /** A crash is an execution that shows in the history and not among the proposals. */
  lemma CrashesOnIff(s: Files, c: Command, id: string)
    requires Admissible(c)
    ensures CrashesOn(s, c, id) <==>
      && c.Execute? && c.id == id
      && |Next(s, c).history| == |s.history| + 1 && Next(s, c).proposals == s.proposals
  {
    if c.Execute? {
      var at := Find(s.proposals, c.id, c.network);
      if at.Some? && Enabled(s, c, at.value) && !c.around.crash {
        assert Next(s, c).proposals[at.value].status == Executed;
      }
    }
  }

  lemma CrashesCount(s: Files, cs: seq<Command>, c: Command, id: string)
    requires AllAdmissible(cs + [c]) && AllAdmissible(cs)
    ensures Crashes(s, [], id) == 0
    ensures Crashes(s, cs + [c], id) == Crashes(s, cs, id) + if CrashesOn(Run(s, cs), c, id) then 1 else 0
  {
    assert (cs + [c])[..|cs|] == cs;
  }
}
