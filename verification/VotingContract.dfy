/** The voting contract that `starforge new --template voting` emits. A panic undoes every storage
    write of the invocation, and arithmetic is checked: overflow panics. */
module VotingContract {
  import opened Strings
  import opened Wrappers

  type Address = string

  datatype Panic = NotAuthorized | AlreadyVoted | NotFound | Closed | Overflow

  datatype Proposal = Proposal(id: nat, creator: Address, title: string, yes: nat, no: nat, active: bool)

  datatype Storage = Storage(count: nat, proposals: map<nat, Proposal>, votes: map<(nat, Address), bool>)

  const EMPTY := Storage(0, map[], map[])

  datatype Call =
    | Create(creator: Address, title: string)
    | Vote(voter: Address, id: nat, approve: bool)
    | Close(id: nat)

  function Tallied(p: Proposal, approve: bool): Proposal {
    if approve then p.(yes := p.yes + 1) else p.(no := p.no + 1)
  }

  /** What an invocation does to the storage, or why it panics. */
  function Step(s: Storage, auth: set<Address>, call: Call): Result<Storage, Panic> {
    match call
    case Create(creator, title) =>
      if creator !in auth then Failure(NotAuthorized)
      else if s.count + 1 > U32_MAX then Failure(Overflow)
      else Success(s.(count := s.count + 1,
                      proposals := s.proposals[s.count + 1 := Proposal(s.count + 1, creator, title, 0, 0, true)]))
    case Vote(voter, id, approve) =>
      if voter !in auth then Failure(NotAuthorized)
      else if (id, voter) in s.votes then Failure(AlreadyVoted)
      else if id !in s.proposals then Failure(NotFound)
      else if !s.proposals[id].active then Failure(Closed)
      else if Tallied(s.proposals[id], approve).yes > U32_MAX || Tallied(s.proposals[id], approve).no > U32_MAX
      then Failure(Overflow)
      else Success(s.(proposals := s.proposals[id := Tallied(s.proposals[id], approve)],
                      votes := s.votes[(id, voter) := approve]))
    case Close(id) =>
      if id !in s.proposals then Failure(NotFound)
      else if s.proposals[id].creator !in auth then Failure(NotAuthorized)
      else Success(s.(proposals := s.proposals[id := s.proposals[id].(active := false)]))
  }

  function After(s: Storage, r: Result<Storage, Panic>): Storage {
    if r.Success? then r.value else s
  }

  class Contract {
    var count: nat
    var proposals: map<nat, Proposal>
    var votes: map<(nat, Address), bool>

    function State(): Storage
      reads this
    {
      Storage(count, proposals, votes)
    }

    constructor ()
      ensures State() == EMPTY
    {
      count, proposals, votes := 0, map[], map[];
    }

    method CreateProposal(auth: set<Address>, creator: Address, title: string) returns (r: Result<nat, Panic>)
      modifies this
      ensures var step := Step(old(State()), auth, Create(creator, title));
        && State() == After(old(State()), step)
        && (r.Success? <==> step.Success?) && (r.Failure? ==> r.error == step.error)
      ensures r.Success? ==> r.value == old(count) + 1
      ensures r.Success? ==>
        && count == old(count) + 1 && votes == old(votes)
        && proposals == old(proposals)[count := Proposal(count, creator, title, 0, 0, true)]
    {
      if creator !in auth { return Failure(NotAuthorized); }
      if count + 1 > U32_MAX { return Failure(Overflow); }
      var id := count + 1;
      var proposal := Proposal(id, creator, title, 0, 0, true);
      proposals := proposals[id := proposal];
      count := id;
      r := Success(id);
    }

    method CastVote(auth: set<Address>, voter: Address, id: nat, approve: bool) returns (r: Result<(), Panic>)
      requires id in proposals ==> proposals[id].yes <= U32_MAX && proposals[id].no <= U32_MAX
      modifies this
      ensures var step := Step(old(State()), auth, Vote(voter, id, approve));
        && State() == After(old(State()), step)
        && (r.Success? <==> step.Success?) && (r.Failure? ==> r.error == step.error)
      ensures r.Success? ==>
        && id in old(proposals) && proposals.Keys == old(proposals).Keys && count == old(count)
        && CountedOnce(old(proposals)[id], proposals[id], approve)
        && (forall j | j in proposals && j != id :: proposals[j] == old(proposals)[j])
        && votes == old(votes)[(id, voter) := approve]
    {
      if voter !in auth { return Failure(NotAuthorized); }
      if (id, voter) in votes { return Failure(AlreadyVoted); }
      if id !in proposals { return Failure(NotFound); }
      var proposal := proposals[id];
      if !proposal.active { return Failure(Closed); }
      if approve {
        if proposal.yes + 1 > U32_MAX { return Failure(Overflow); }
        proposal := proposal.(yes := proposal.yes + 1);
      } else {
        if proposal.no + 1 > U32_MAX { return Failure(Overflow); }
        proposal := proposal.(no := proposal.no + 1);
      }
      proposals := proposals[id := proposal];
      votes := votes[(id, voter) := approve];
      r := Success(());
    }

    method CloseProposal(auth: set<Address>, id: nat) returns (r: Result<(), Panic>)
      modifies this
      ensures var step := Step(old(State()), auth, Close(id));
        && State() == After(old(State()), step)
        && (r.Success? <==> step.Success?) && (r.Failure? ==> r.error == step.error)
      ensures r.Success? ==>
        && id in old(proposals) && proposals == old(proposals)[id := old(proposals)[id].(active := false)]
        && votes == old(votes) && count == old(count)
    {
      if id !in proposals { return Failure(NotFound); }
      var proposal := proposals[id];
      if proposal.creator !in auth { return Failure(NotAuthorized); }
      proposals := proposals[id := proposal.(active := false)];
      r := Success(());
    }

    /** The tallies; in every reachable state they are the numbers of distinct voters on either side. */
    method Results(id: nat) returns (r: Result<(nat, nat), Panic>)
      ensures id !in proposals ==> r == Failure(NotFound)
      ensures id in proposals ==> r == Success((proposals[id].yes, proposals[id].no))
      ensures Valid(State()) && id in proposals ==>
        r == Success((|Voters(State(), id, true)|, |Voters(State(), id, false)|))
    {
      if id !in proposals { return Failure(NotFound); }
      r := Success((proposals[id].yes, proposals[id].no));
    }
  }

  // ---------------------------------------------------------------- one call

  /** One more vote on one side, and nothing else. */
  predicate CountedOnce(p: Proposal, q: Proposal, approve: bool) {
    && q.yes == p.yes + (if approve then 1 else 0) && q.no == p.no + (if approve then 0 else 1)
    && q.id == p.id && q.creator == p.creator && q.title == p.title && q.active == p.active
  }

  /** A vote that goes through counts once on its side and is written down. */
  lemma VoteIsCounted(s: Storage, auth: set<Address>, voter: Address, id: nat, approve: bool)
    requires Step(s, auth, Vote(voter, id, approve)).Success?
    ensures var t := Step(s, auth, Vote(voter, id, approve)).value;
      && id in s.proposals && t.proposals.Keys == s.proposals.Keys && t.count == s.count
      && CountedOnce(s.proposals[id], t.proposals[id], approve)
      && (forall j | j in s.proposals && j != id :: t.proposals[j] == s.proposals[j])
      && t.votes == s.votes[(id, voter) := approve]
  {
  }

  /** A proposal is created exactly when its creator authorizes it and the counter has room; it is open and
      without votes, under the next number. */
  lemma CreateOpens(s: Storage, auth: set<Address>, creator: Address, title: string)
    ensures var r := Step(s, auth, Create(creator, title));
      && (r.Success? <==> creator in auth && s.count < 0xFFFF_FFFF)
      && (r.Success? ==>
            && r.value.count == s.count + 1 && r.value.votes == s.votes
            && r.value.proposals == s.proposals[s.count + 1 := Proposal(s.count + 1, creator, title, 0, 0, true)])
  {
  }

  /** A proposal is closed exactly when its creator authorizes it; nothing else of it changes. */
  lemma CloseCloses(s: Storage, auth: set<Address>, id: nat)
    ensures var r := Step(s, auth, Close(id));
      && (r.Success? <==> id in s.proposals && s.proposals[id].creator in auth)
      && (r.Success? ==>
            && !r.value.proposals[id].active && r.value.count == s.count && r.value.votes == s.votes
            && r.value.proposals == s.proposals[id := s.proposals[id].(active := false)])
  {
  }

  /** After a close, in every run, no vote on the proposal is accepted and the results stay. */
  lemma ClosedRefusesVotes(s: Storage, auth: set<Address>, id: nat, calls: seq<Invocation>,
                           voters: set<Address>, voter: Address, approve: bool)
    requires Valid(s) && Step(s, auth, Close(id)).Success?
    ensures var t := Run(Step(s, auth, Close(id)).value, calls);
      && Step(t, voters, Vote(voter, id, approve)).Failure?
      && id in t.proposals
      && t.proposals[id].yes == s.proposals[id].yes && t.proposals[id].no == s.proposals[id].no
  {
    hide Counts, Voters;
    CloseKeepsValid(s, auth, id);
    ClosedIsFinal(Step(s, auth, Close(id)).value, calls, id);
  }

  // ---------------------------------------------------------------- what every run keeps

  datatype Invocation = Invocation(auth: set<Address>, call: Call)

  function Run(s: Storage, calls: seq<Invocation>): Storage {
    if calls == [] then s else
      var before, last := Run(s, calls[..|calls| - 1]), calls[|calls| - 1];
      After(before, Step(before, last.auth, last.call))
  }

  /** The addresses whose stored vote on a proposal is `approve`. */
  ghost function Voters(s: Storage, id: nat, approve: bool): set<Address> {
    set key | key in s.votes && key.0 == id && s.votes[key] == approve :: key.1
  }

  lemma VotersIff(s: Storage, id: nat, approve: bool, a: Address)
    ensures a in Voters(s, id, approve) <==> (id, a) in s.votes && s.votes[(id, a)] == approve
  {
  }

  ghost predicate Counts(s: Storage, id: nat)
    requires id in s.proposals
  {
    && s.proposals[id].yes == |Voters(s, id, true)|
    && s.proposals[id].no == |Voters(s, id, false)|
    && s.proposals[id].yes <= U32_MAX && s.proposals[id].no <= U32_MAX
  }

  ghost predicate Valid(s: Storage) {
    && (forall id :: id in s.proposals <==> 1 <= id <= s.count)
    && (forall id :: id in s.proposals ==> s.proposals[id].id == id && Counts(s, id))
    && (forall key :: key in s.votes ==> key.0 in s.proposals)
    && s.count <= U32_MAX
  }

  lemma VoteCounts(s: Storage, voter: Address, id: nat, approve: bool, s': Storage, j: nat, b: bool)
    requires (id, voter) !in s.votes && s'.votes == s.votes[(id, voter) := approve]
    ensures |Voters(s', j, b)| == |Voters(s, j, b)| + if j == id && b == approve then 1 else 0
  {
    forall a ensures a in Voters(s', j, b) <==> a in Voters(s, j, b) || (a == voter && j == id && b == approve) {
      assert a in Voters(s', j, b) <==> (j, a) in s'.votes && s'.votes[(j, a)] == b;
      assert a in Voters(s, j, b) <==> (j, a) in s.votes && s.votes[(j, a)] == b;
    }
    if j == id && b == approve {
      assert Voters(s', j, b) == Voters(s, j, b) + {voter} && voter !in Voters(s, j, b);
    } else {
      assert Voters(s', j, b) == Voters(s, j, b);
    }
  }

  lemma CreateKeepsValid(s: Storage, auth: set<Address>, creator: Address, title: string)
    requires Valid(s) && Step(s, auth, Create(creator, title)).Success?
    ensures Valid(Step(s, auth, Create(creator, title)).value)
  {
    var s' := Step(s, auth, Create(creator, title)).value;
    forall id | id in s'.proposals ensures Counts(s', id) {
      assert Voters(s', id, true) == Voters(s, id, true) && Voters(s', id, false) == Voters(s, id, false);
      if id == s'.count {
        assert Voters(s, id, true) == {} && Voters(s, id, false) == {};
      } else {
        assert Counts(s, id);
      }
    }
  }

  lemma CountsAfterVote(s: Storage, voter: Address, id: nat, approve: bool, s': Storage, j: nat)
    requires (id, voter) !in s.votes && s'.votes == s.votes[(id, voter) := approve]
    requires id in s.proposals && s'.proposals == s.proposals[id := Tallied(s.proposals[id], approve)]
    requires Tallied(s.proposals[id], approve).yes <= U32_MAX && Tallied(s.proposals[id], approve).no <= U32_MAX
    requires j in s.proposals && Counts(s, j)
    ensures Counts(s', j)
  {
    hide Voters;
    VoteCounts(s, voter, id, approve, s', j, true);
    VoteCounts(s, voter, id, approve, s', j, false);
  }

  lemma VoteKeepsValid(s: Storage, auth: set<Address>, voter: Address, id: nat, approve: bool)
    requires Valid(s) && Step(s, auth, Vote(voter, id, approve)).Success?
    ensures Valid(Step(s, auth, Vote(voter, id, approve)).value)
  {
    hide Counts;
    var s' := Step(s, auth, Vote(voter, id, approve)).value;
    forall j | j in s'.proposals ensures Counts(s', j) {
      CountsAfterVote(s, voter, id, approve, s', j);
    }
  }

  lemma CloseKeepsValid(s: Storage, auth: set<Address>, id: nat)
    requires Valid(s) && Step(s, auth, Close(id)).Success?
    ensures Valid(Step(s, auth, Close(id)).value)
  {
    var s' := Step(s, auth, Close(id)).value;
    forall j | j in s'.proposals ensures Counts(s', j) {
      assert Voters(s', j, true) == Voters(s, j, true) && Voters(s', j, false) == Voters(s, j, false);
      assert Counts(s, j);
    }
  }

  lemma StepKeepsValid(s: Storage, auth: set<Address>, call: Call)
    requires Valid(s)
    ensures Valid(After(s, Step(s, auth, call)))
  {
    hide Valid, Step;
    if Step(s, auth, call).Success? {
      match call
      case Create(creator, title) => CreateKeepsValid(s, auth, creator, title);
      case Vote(voter, id, approve) => VoteKeepsValid(s, auth, voter, id, approve);
      case Close(id) => CloseKeepsValid(s, auth, id);
    }
  }

  /** In every run the tallies count the distinct voters, proposals are exactly 1 to the count, and
      votes exist for them only. */
  lemma {:induction false} RunKeepsValid(s: Storage, calls: seq<Invocation>)
    requires Valid(s)
    ensures Valid(Run(s, calls))
  {
    if calls != [] {
      var last := calls[|calls| - 1];
      RunKeepsValid(s, calls[..|calls| - 1]);
      StepKeepsValid(Run(s, calls[..|calls| - 1]), last.auth, last.call);
    }
  }

  lemma EmptyValid()
    ensures Valid(EMPTY)
  {
  }

  /** A vote once cast never changes. */
  lemma {:induction false} VotesAreFinal(s: Storage, calls: seq<Invocation>, key: (nat, Address))
    requires key in s.votes
    ensures key in Run(s, calls).votes && Run(s, calls).votes[key] == s.votes[key]
  {
    if calls != [] {
      VotesAreFinal(s, calls[..|calls| - 1], key);
    }
  }

  /** Once closed, a proposal never changes again and gets no further vote. */
  lemma {:induction false} ClosedIsFinal(s: Storage, calls: seq<Invocation>, id: nat)
    requires Valid(s) && id in s.proposals && !s.proposals[id].active
    ensures id in Run(s, calls).proposals && Run(s, calls).proposals[id] == s.proposals[id]
    ensures forall a :: (id, a) in Run(s, calls).votes ==> (id, a) in s.votes
    ensures s.count <= Run(s, calls).count
  {
    hide Voters, Counts;
    if calls != [] {
      ClosedIsFinal(s, calls[..|calls| - 1], id);
    }
  }

  /** A vote is accepted exactly when it is authorized, the first of its voter, on an open proposal,
      and the tally has room. */
  lemma VoteAcceptedIff(s: Storage, auth: set<Address>, voter: Address, id: nat, approve: bool)
    requires Valid(s)
    ensures Step(s, auth, Vote(voter, id, approve)).Success? <==>
      && voter in auth
      && voter !in Voters(s, id, true) + Voters(s, id, false)
      && 1 <= id <= s.count && s.proposals[id].active
      && |Voters(s, id, approve)| < U32_MAX
  {
    assert voter in Voters(s, id, true) <==> (id, voter) in s.votes && s.votes[(id, voter)] == true;
    assert voter in Voters(s, id, false) <==> (id, voter) in s.votes && s.votes[(id, voter)] == false;
    if id in s.proposals { assert Counts(s, id); }
  }
}
