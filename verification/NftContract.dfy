/** The NFT contract that `starforge new --template nft` emits. A panic undoes every storage write
    of the invocation, and arithmetic is checked: overflow panics. */
module NftContract {
  import opened Strings
  import opened Wrappers

  type Address = string

  datatype Panic = NotAuthorized | NotInitialized | AlreadyExists | NotFound | NotOwner | Overflow

  datatype Token = Token(owner: Address, uri: string)

  datatype Storage = Storage(admin: Option<Address>, tokens: map<nat, Token>, totalSupply: Option<nat>) {
    function Supply(): nat {
      if totalSupply.Some? then totalSupply.value else 0
    }
  }

  const EMPTY := Storage(None, map[], None)

  datatype Call =
    | Initialize(admin: Address)
    | Mint(to: Address, id: nat, uri: string)
    | Transfer(from: Address, receiver: Address, id: nat)

  function Step(s: Storage, auth: set<Address>, call: Call): Result<Storage, Panic> {
    match call
    case Initialize(admin) =>
      if admin !in auth then Failure(NotAuthorized) else Success(s.(admin := Some(admin), totalSupply := Some(0)))
    case Mint(to, id, uri) =>
      if s.admin.None? then Failure(NotInitialized)
      else if s.admin.value !in auth then Failure(NotAuthorized)
      else if id in s.tokens then Failure(AlreadyExists)
      else if s.totalSupply.None? then Failure(NotInitialized)
      else if s.totalSupply.value + 1 > U64_MAX then Failure(Overflow)
      else Success(s.(tokens := s.tokens[id := Token(to, uri)], totalSupply := Some(s.totalSupply.value + 1)))
    case Transfer(from, to, id) =>
      if from !in auth then Failure(NotAuthorized)
      else if id !in s.tokens then Failure(NotFound)
      else if s.tokens[id].owner != from then Failure(NotOwner)
      else Success(s.(tokens := s.tokens[id := s.tokens[id].(owner := to)]))
  }

  function After(s: Storage, r: Result<Storage, Panic>): Storage {
    if r.Success? then r.value else s
  }

  class Contract {
    var admin: Option<Address>
    var tokens: map<nat, Token>
    var totalSupply: Option<nat>

    function State(): Storage
      reads this
    {
      Storage(admin, tokens, totalSupply)
    }

    constructor ()
      ensures State() == EMPTY
    {
      admin, tokens, totalSupply := None, map[], None;
    }

    method InitializeNft(auth: set<Address>, admin: Address) returns (r: Result<(), Panic>)
      modifies this
      ensures var step := Step(old(State()), auth, Initialize(admin));
        State() == After(old(State()), step) && r.Success? == step.Success? && (r.Failure? ==> r.error == step.error)
      ensures r.Success? ==> this.admin == Some(admin) && totalSupply == Some(0) && tokens == old(tokens)
    {
      if admin !in auth { return Failure(NotAuthorized); }
      this.admin := Some(admin);
      totalSupply := Some(0);
      r := Success(());
    }

    method MintTo(auth: set<Address>, to: Address, id: nat, uri: string) returns (r: Result<(), Panic>)
      modifies this
      ensures var step := Step(old(State()), auth, Mint(to, id, uri));
        State() == After(old(State()), step) && r.Success? == step.Success? && (r.Failure? ==> r.error == step.error)
      ensures r.Success? ==>
        && id !in old(tokens) && tokens == old(tokens)[id := Token(to, uri)] && admin == old(admin)
        && old(totalSupply).Some? && totalSupply == Some(old(totalSupply).value + 1)
    {
      var committed := tokens;
      if admin.None? { return Failure(NotInitialized); }
      if admin.value !in auth { return Failure(NotAuthorized); }
      if id in tokens { return Failure(AlreadyExists); }
      tokens := tokens[id := Token(to, uri)];
      if totalSupply.None? {
        tokens := committed;
        return Failure(NotInitialized);
      }
      if totalSupply.value + 1 > U64_MAX {
        tokens := committed;
        return Failure(Overflow);
      }
      totalSupply := Some(totalSupply.value + 1);
      r := Success(());
    }

    method TransferFrom(auth: set<Address>, from: Address, to: Address, id: nat) returns (r: Result<(), Panic>)
      modifies this
      ensures var step := Step(old(State()), auth, Transfer(from, to, id));
        State() == After(old(State()), step) && r.Success? == step.Success? && (r.Failure? ==> r.error == step.error)
      ensures r.Success? ==>
        && id in old(tokens) && tokens == old(tokens)[id := Token(to, old(tokens)[id].uri)]
        && admin == old(admin) && totalSupply == old(totalSupply)
    {
      if from !in auth { return Failure(NotAuthorized); }
      if id !in tokens { return Failure(NotFound); }
      var metadata := tokens[id];
      if metadata.owner != from { return Failure(NotOwner); }
      metadata := metadata.(owner := to);
      tokens := tokens[id := metadata];
      r := Success(());
    }
  }

  // ---------------------------------------------------------------- one call

  /** A token is handed over exactly when its owner authorizes it; the receiver owns it then, and nothing
      else changes. */
  lemma TransferHandsOver(s: Storage, auth: set<Address>, from: Address, to: Address, id: nat)
    ensures var r := Step(s, auth, Transfer(from, to, id));
      && (r.Success? <==> from in auth && id in s.tokens && s.tokens[id].owner == from)
      && (r.Success? ==>
            && id in r.value.tokens && r.value.tokens[id].owner == to && r.value.tokens[id].uri == s.tokens[id].uri
            && r.value.tokens.Keys == s.tokens.Keys
            && (forall t | t in s.tokens && t != id :: r.value.tokens[t] == s.tokens[t])
            && r.value.totalSupply == s.totalSupply && r.value.admin == s.admin)
  {
  }

  /** A token is minted exactly when the administrator authorizes a new identifier and the counter has
      room; its owner and uri are the ones asked for. */
  lemma MintCreates(s: Storage, auth: set<Address>, to: Address, id: nat, uri: string)
    ensures var r := Step(s, auth, Mint(to, id, uri));
      && (r.Success? <==>
            && s.admin.Some? && s.admin.value in auth && id !in s.tokens
            && s.totalSupply.Some? && s.totalSupply.value < 0xFFFF_FFFF_FFFF_FFFF)
      && (r.Success? ==>
            && r.value.tokens == s.tokens[id := Token(to, uri)] && r.value.admin == s.admin
            && r.value.totalSupply == Some(s.totalSupply.value + 1))
  {
  }

  lemma InitializeResets(s: Storage, auth: set<Address>, admin: Address)
    ensures var r := Step(s, auth, Initialize(admin));
      && (r.Success? <==> admin in auth)
      && (r.Success? ==> r.value.admin == Some(admin) && r.value.totalSupply == Some(0) && r.value.tokens == s.tokens)
  {
  }

  // ---------------------------------------------------------------- runs

  datatype Invocation = Invocation(auth: set<Address>, call: Call)

  function Run(s: Storage, calls: seq<Invocation>): Storage {
    if calls == [] then s else
      var before, last := Run(s, calls[..|calls| - 1]), calls[|calls| - 1];
      After(before, Step(before, last.auth, last.call))
  }

  /** How many initializations of a run succeed. */
  function Initializations(calls: seq<Invocation>): nat {
    if calls == [] then 0 else
      var init, last := calls[..|calls| - 1], calls[|calls| - 1];
      Initializations(init)
      + if last.call.Initialize? && Step(Run(EMPTY, init), last.auth, last.call).Success? then 1 else 0
  }

  /** In every run with at most one initialization, the total supply is the number of tokens. */
  lemma {:induction false} SupplyIsCount(calls: seq<Invocation>)
    requires Initializations(calls) <= 1
    ensures Run(EMPTY, calls).Supply() == |Run(EMPTY, calls).tokens|
    ensures Initializations(calls) == 0 ==>
        Run(EMPTY, calls).admin == None && Run(EMPTY, calls).tokens == map[] && Run(EMPTY, calls).totalSupply == None
  {
    if calls != [] {
      var init, last := calls[..|calls| - 1], calls[|calls| - 1];
      SupplyIsCount(init);
      var s := Run(EMPTY, init);
      if last.call.Transfer? && Step(s, last.auth, last.call).Success? {
        assert Step(s, last.auth, last.call).value.tokens.Keys == s.tokens.Keys;
        assert |s.tokens| == |s.tokens.Keys|;
      }
    }
  }

  /** Initializing again resets the supply alone: it stays the count exactly if there is no token. */
  lemma ReinitializationCountsIff(s: Storage, auth: set<Address>, admin: Address)
    requires admin in auth
    ensures var after := Step(s, auth, Initialize(admin)).value;
      after.Supply() == |after.tokens| <==> s.tokens == map[]
  {
  }

  lemma RunGrows(s: Storage, calls: seq<Invocation>, c: Invocation)
    ensures Run(s, calls + [c]) == After(Run(s, calls), Step(Run(s, calls), c.auth, c.call))
  {
    assert (calls + [c])[..|calls|] == calls;
  }

  /** A run that breaks the law: initialize, mint one token, initialize again. The supply is zero and
      there is a token. */
  lemma ReinitializationExample(a: Address, id: nat, uri: string)
    ensures var run := [Invocation({a}, Initialize(a)), Invocation({a}, Mint(a, id, uri)),
                        Invocation({a}, Initialize(a))];
      Run(EMPTY, run).Supply() == 0 && |Run(EMPTY, run).tokens| == 1
  {
    var i, j := Invocation({a}, Initialize(a)), Invocation({a}, Mint(a, id, uri));
    RunGrows(EMPTY, [], i);
    RunGrows(EMPTY, [] + [i], j);
    RunGrows(EMPTY, [] + [i] + [j], i);
    assert [] + [i] + [j] + [i] == [i, j, i];
    assert Run(EMPTY, [] + [i] + [j]).tokens == map[id := Token(a, uri)];
  }

  /** From any state on, a token never disappears and its uri never changes. */
  lemma {:induction false} TokensArePermanent(s: Storage, calls: seq<Invocation>, id: nat)
    requires id in s.tokens
    ensures id in Run(s, calls).tokens && Run(s, calls).tokens[id].uri == s.tokens[id].uri
  {
    if calls != [] {
      TokensArePermanent(s, calls[..|calls| - 1], id);
    }
  }

  /** A run that changes a token's owner holds a transfer of it that its owner at the time authorized. */
  lemma {:induction false} OwnerAuthorizesChange(s: Storage, calls: seq<Invocation>, id: nat)
    requires id in s.tokens && id in Run(s, calls).tokens
    requires Run(s, calls).tokens[id].owner != s.tokens[id].owner
    ensures exists k :: 0 <= k < |calls| && OwnerTransfers(Run(s, calls[..k]), calls[k], id)
  {
    var init, last := calls[..|calls| - 1], calls[|calls| - 1];
    TokensArePermanent(s, init, id);
    if Run(s, init).tokens[id].owner != s.tokens[id].owner {
      OwnerAuthorizesChange(s, init, id);
      var k :| 0 <= k < |init| && OwnerTransfers(Run(s, init[..k]), init[k], id);
      assert init[..k] == calls[..k] && init[k] == calls[k];
    } else {
      assert OwnerTransfers(Run(s, calls[..|init|]), calls[|init|], id);
    }
  }

  ghost predicate OwnerTransfers(s: Storage, c: Invocation, id: nat) {
    && c.call.Transfer? && c.call.id == id && id in s.tokens
    && c.call.from == s.tokens[id].owner && c.call.from in c.auth
  }

  function Ids(n: nat): (s: set<nat>)
    ensures |s| == n
    ensures forall id: nat :: id in s <==> id < n
  {
    if n == 0 then {} else Ids(n - 1) + {n - 1}
  }

  lemma {:induction false} SubsetSize<T>(a: set<T>, b: set<T>)
    requires a <= b
    ensures |a| <= |b|
    ensures |a| == |b| ==> a == b
  {
    if a != {} {
      var x :| x in a;
      SubsetSize(a - {x}, b - {x});
    }
  }

  /** Token identifiers are u64 values: minting overflows the counter only for the very last free one. */
  lemma MintOverflowsIff(calls: seq<Invocation>, auth: set<Address>, to: Address, id: nat, uri: string)
    requires Initializations(calls) <= 1
    requires id <= U64_MAX && forall t :: t in Run(EMPTY, calls).tokens ==> t <= U64_MAX
    ensures var s := Run(EMPTY, calls);
      Step(s, auth, Mint(to, id, uri)) == Failure(Overflow) <==>
        && s.admin.Some? && s.admin.value in auth && id !in s.tokens
        && forall t: nat :: t <= U64_MAX && t != id ==> t in s.tokens
  {
    var s := Run(EMPTY, calls);
    SupplyIsCount(calls);
    AdminHasSupply(calls);
    var others := Ids(U64_MAX + 1) - {id};
    assert |others| == U64_MAX;
    assert |s.tokens| == |s.tokens.Keys|;
    if id !in s.tokens {
      assert s.tokens.Keys <= others;
      SubsetSize(s.tokens.Keys, others);
      assert (forall t: nat :: t <= U64_MAX && t != id ==> t in s.tokens) <==> others <= s.tokens.Keys;
      assert others <= s.tokens.Keys <==> s.tokens.Keys == others;
    }
  }

  lemma {:induction false} AdminHasSupply(calls: seq<Invocation>)
    ensures Run(EMPTY, calls).admin.Some? <==> Run(EMPTY, calls).totalSupply.Some?
  {
    if calls != [] {
      AdminHasSupply(calls[..|calls| - 1]);
    }
  }
}
