/** The token contract that `starforge new --template token` emits. A panic undoes every storage
    write of the invocation, and arithmetic is checked: overflow panics. */
module TokenContract {
  import opened Sums
  import opened Wrappers

  type Address = string

  const I128_MIN: int := -0x8000_0000_0000_0000_0000_0000_0000_0000
  const I128_MAX: int := 0x7FFF_FFFF_FFFF_FFFF_FFFF_FFFF_FFFF_FFFF

  predicate InI128(n: int) {
    I128_MIN <= n <= I128_MAX
  }

  lemma I128Range(n: int)
    ensures InI128(n) <==> -0x8000_0000_0000_0000_0000_0000_0000_0000 <= n < 0x8000_0000_0000_0000_0000_0000_0000_0000
  {
  }

  datatype Panic = NotAuthorized | NotInitialized | InsufficientBalance | Overflow

  datatype Metadata = Metadata(decimal: nat, name: string, symbol: string)

  /** The storage of the contract. */
  datatype Storage = Storage(
    admin: Option<Address>,
    metadata: Option<Metadata>,
    balances: map<Address, int>,
    totalSupply: Option<int>)
  {
    predicate Typed() {
      (forall a :: a in balances ==> InI128(balances[a])) && (totalSupply.Some? ==> InI128(totalSupply.value))
    }

    function Supply(): int {
      if totalSupply.Some? then totalSupply.value else 0
    }
  }

  const EMPTY := Storage(None, None, map[], None)

  datatype Call =
    | Initialize(admin: Address, metadata: Metadata)
    | Mint(to: Address, amount: int)
    | Transfer(from: Address, receiver: Address, amount: int)

  /** Balances after moving `amount` between two accounts, as one simultaneous change. */
  function Moved(m: map<Address, int>, from: Address, to: Address, amount: int): map<Address, int> {
    map a | a in m.Keys + {from, to} ::
      At(m, a) - (if a == from then amount else 0) + (if a == to then amount else 0)
  }

  /** What an invocation does to the storage, or why it panics. */
  function Step(s: Storage, auth: set<Address>, call: Call): Result<Storage, Panic> {
    match call
    case Initialize(admin, metadata) =>
      if admin !in auth then Failure(NotAuthorized)
      else Success(Storage(Some(admin), Some(metadata), s.balances, Some(0)))
    case Mint(to, amount) =>
      if s.admin.None? then Failure(NotInitialized)
      else if s.admin.value !in auth then Failure(NotAuthorized)
      else if !InI128(At(s.balances, to) + amount) then Failure(Overflow)
      else if s.totalSupply.None? then Failure(NotInitialized)
      else if !InI128(s.totalSupply.value + amount) then Failure(Overflow)
      else Success(s.(balances := s.balances[to := At(s.balances, to) + amount],
                      totalSupply := Some(s.totalSupply.value + amount)))
    case Transfer(from, to, amount) =>
      if from !in auth then Failure(NotAuthorized)
      else if At(s.balances, from) < amount then Failure(InsufficientBalance)
      else if !InI128(At(s.balances, from) - amount) then Failure(Overflow)
      else if from != to && !InI128(At(s.balances, to) + amount) then Failure(Overflow)
      else Success(s.(balances := Moved(s.balances, from, to, amount)))
  }

  function After(s: Storage, r: Result<Storage, Panic>): Storage {
    if r.Success? then r.value else s
  }

  class Contract {
    var admin: Option<Address>
    var metadata: Option<Metadata>
    var balances: map<Address, int>
    var totalSupply: Option<int>

    function State(): Storage
      reads this
    {
      Storage(admin, metadata, balances, totalSupply)
    }

    constructor ()
      ensures State() == EMPTY
    {
      admin, metadata, balances, totalSupply := None, None, map[], None;
    }

    method InitializeToken(auth: set<Address>, admin: Address, metadata: Metadata) returns (r: Result<(), Panic>)
      modifies this
      ensures var step := Step(old(State()), auth, Initialize(admin, metadata));
        State() == After(old(State()), step) && r.Success? == step.Success? && (r.Failure? ==> r.error == step.error)
      ensures r.Success? ==>
        && this.admin == Some(admin) && this.metadata == Some(metadata)
        && totalSupply == Some(0) && balances == old(balances)
    {
      if admin !in auth { return Failure(NotAuthorized); }
      this.admin := Some(admin);
      this.metadata := Some(metadata);
      totalSupply := Some(0);
      r := Success(());
    }

    method MintTo(auth: set<Address>, to: Address, amount: int) returns (r: Result<(), Panic>)
      modifies this
      ensures var step := Step(old(State()), auth, Mint(to, amount));
        State() == After(old(State()), step) && r.Success? == step.Success? && (r.Failure? ==> r.error == step.error)
      ensures r.Success? ==>
        && Credited(old(balances), balances, to, amount)
        && (forall a | a != to :: Untouched(old(balances), balances, a))
        && old(totalSupply).Some? && totalSupply == Some(old(totalSupply).value + amount)
        && admin == old(admin) && metadata == old(metadata)
    {
      var committed := balances;
      if admin.None? { return Failure(NotInitialized); }
      if admin.value !in auth { return Failure(NotAuthorized); }
      var balance := Balance(to);
      if !InI128(balance + amount) { return Failure(Overflow); }
      balances := balances[to := balance + amount];
      if totalSupply.None? {
        balances := committed;
        return Failure(NotInitialized);
      }
      if !InI128(totalSupply.value + amount) {
        balances := committed;
        return Failure(Overflow);
      }
      totalSupply := Some(totalSupply.value + amount);
      r := Success(());
    }

    /** Debits first, then reads the receiver's balance again: the two accounts may be one. */
    method TransferFrom(auth: set<Address>, from: Address, to: Address, amount: int) returns (r: Result<(), Panic>)
      requires State().Typed()
      modifies this
      ensures var step := Step(old(State()), auth, Transfer(from, to, amount));
        State() == After(old(State()), step) && r.Success? == step.Success? && (r.Failure? ==> r.error == step.error)
      ensures r.Success? && from != to ==>
        && Credited(old(balances), balances, from, -amount)
        && Credited(old(balances), balances, to, amount)
      ensures r.Success? ==>
        && (forall a | a != from && a != to :: Untouched(old(balances), balances, a))
        && totalSupply == old(totalSupply) && admin == old(admin) && metadata == old(metadata)
    {
      hide Moved;
      var committed := balances;
      MovedTwice(committed, from, to, amount);
      MovedAt(committed, from, to, amount);
      if from !in auth { return Failure(NotAuthorized); }
      var fromBalance := Balance(from);
      if fromBalance < amount { return Failure(InsufficientBalance); }
      if !InI128(fromBalance - amount) { return Failure(Overflow); }
      balances := balances[from := fromBalance - amount];
      var toBalance := Balance(to);
      if !InI128(toBalance + amount) {
        balances := committed;
        return Failure(Overflow);
      }
      balances := balances[to := toBalance + amount];
      r := Success(());
    }

    /** No entry means zero; and in a contract initialized once, whose calls never take more than there
        is, a balance is part of the supply. */
    method Balance(id: Address) returns (balance: int)
      ensures balance == At(balances, id)
      ensures ReachedCovered(State()) ==> 0 <= balance <= State().Supply()
    {
      balance := if id in balances then balances[id] else 0;
      if ReachedCovered(State()) {
        ghost var calls :| Initializations(calls) <= 1 && AllCovered(calls) && Run(calls) == State();
        BalancesBounded(calls);
      }
    }

    /** In a contract initialized at most once it is the sum of all balances. */
    method TotalSupply() returns (supply: int)
      ensures supply == State().Supply()
      ensures Reached(State()) ==> supply == Sum(balances)
    {
      supply := if totalSupply.Some? then totalSupply.value else 0;
      if Reached(State()) {
        ghost var calls :| Initializations(calls) <= 1 && Run(calls) == State();
        SupplyIsSum(calls);
      }
    }
  }

  // ---------------------------------------------------------------- runs

  datatype Invocation = Invocation(auth: set<Address>, call: Call)

  function Run(calls: seq<Invocation>): Storage {
    if calls == [] then EMPTY else
      var before, last := Run(calls[..|calls| - 1]), calls[|calls| - 1];
      After(before, Step(before, last.auth, last.call))
  }

  /** How many initializations of a run succeed. */
  function Initializations(calls: seq<Invocation>): nat {
    if calls == [] then 0 else
      var init, last := calls[..|calls| - 1], calls[|calls| - 1];
      Initializations(init)
      + if last.call.Initialize? && Step(Run(init), last.auth, last.call).Success? then 1 else 0
  }

  /** An account that has no entry holds nothing. */
  predicate Credited(before: map<Address, int>, after: map<Address, int>, a: Address, amount: int) {
    && a in after
    && after[a] == (if a in before then before[a] else 0) + amount
  }

  predicate Untouched(before: map<Address, int>, after: map<Address, int>, a: Address) {
    (a in after <==> a in before) && (a in before ==> after[a] == before[a])
  }

  lemma MovedAt(m: map<Address, int>, from: Address, to: Address, amount: int)
    ensures from != to ==>
      Credited(m, Moved(m, from, to, amount), from, -amount) && Credited(m, Moved(m, from, to, amount), to, amount)
    ensures forall a | a != from && a != to :: Untouched(m, Moved(m, from, to, amount), a)
  {
  }

  /** A transfer that goes through takes the amount from one account and gives it to the other, and touches
      nothing else. */
  lemma TransferMoves(s: Storage, auth: set<Address>, from: Address, to: Address, amount: int)
    requires Step(s, auth, Transfer(from, to, amount)).Success?
    ensures var t := Step(s, auth, Transfer(from, to, amount)).value;
      && (from != to ==>
            Credited(s.balances, t.balances, from, -amount) && Credited(s.balances, t.balances, to, amount))
      && (forall a | a != from && a != to :: Untouched(s.balances, t.balances, a))
      && t.totalSupply == s.totalSupply && t.admin == s.admin && t.metadata == s.metadata
  {
    MovedAt(s.balances, from, to, amount);
  }

  lemma InitializeResets(s: Storage, auth: set<Address>, admin: Address, metadata: Metadata)
    ensures var r := Step(s, auth, Initialize(admin, metadata));
      && (r.Success? <==> admin in auth)
      && (r.Success? ==>
            && r.value.admin == Some(admin) && r.value.metadata == Some(metadata)
            && r.value.totalSupply == Some(0) && r.value.balances == s.balances)
  {
  }

  /** A mint that goes through gives the amount to one account and adds it to the supply. */
  lemma MintCredits(s: Storage, auth: set<Address>, to: Address, amount: int)
    requires Step(s, auth, Mint(to, amount)).Success?
    ensures var t := Step(s, auth, Mint(to, amount)).value;
      && Credited(s.balances, t.balances, to, amount)
      && (forall a | a != to :: Untouched(s.balances, t.balances, a))
      && s.totalSupply.Some? && t.totalSupply == Some(s.totalSupply.value + amount)
      && t.admin == s.admin && t.metadata == s.metadata
      && s.admin.Some? && s.admin.value in auth
  {
  }

  /** The state of some run with at most one initialization. */
  ghost predicate Reached(s: Storage) {
    exists calls :: Initializations(calls) <= 1 && Run(calls) == s
  }

  lemma MovedTwice(m: map<Address, int>, from: Address, to: Address, amount: int)
    ensures var debited := m[from := At(m, from) - amount];
      Moved(m, from, to, amount) == debited[to := At(debited, to) + amount]
  {
  }

  lemma MovedConserves(m: map<Address, int>, from: Address, to: Address, amount: int)
    ensures Sum(Moved(m, from, to, amount)) == Sum(m)
  {
    var debited := m[from := At(m, from) - amount];
    MovedTwice(m, from, to, amount);
    SumUpdate(m, from, At(m, from) - amount);
    SumUpdate(debited, to, At(debited, to) + amount);
  }

  /** Moving an amount to oneself moves nothing, whatever the amount. */
  lemma SelfTransfer(s: Storage, auth: set<Address>, account: Address, amount: int, a: Address)
    requires Step(s, auth, Transfer(account, account, amount)).Success?
    ensures At(Step(s, auth, Transfer(account, account, amount)).value.balances, a) == At(s.balances, a)
  {
  }

  /** In every run with at most one initialization, the total supply is the sum of the balances. */
  lemma {:induction false} SupplyIsSum(calls: seq<Invocation>)
    requires Initializations(calls) <= 1
    ensures Run(calls).Supply() == Sum(Run(calls).balances)
    ensures Initializations(calls) == 0 ==> Run(calls).admin == None && Run(calls).totalSupply == None
  {
    if calls != [] {
      var init, last := calls[..|calls| - 1], calls[|calls| - 1];
      SupplyIsSum(init);
      StepConserves(Run(init), last.auth, last.call);
    }
  }

  lemma StepConserves(s: Storage, auth: set<Address>, call: Call)
    requires Step(s, auth, call).Success?  ==> !call.Initialize? || s.Supply() == 0
    requires s.Supply() == Sum(s.balances)
    ensures After(s, Step(s, auth, call)).Supply() == Sum(After(s, Step(s, auth, call)).balances)
  {
    match call
    case Initialize(_, _) =>
    case Mint(to, amount) => SumUpdate(s.balances, to, At(s.balances, to) + amount);
    case Transfer(from, to, amount) => MovedConserves(s.balances, from, to, amount);
  }

  /** Initializing again resets the supply alone: it stays the sum exactly if nothing was in
      circulation. */
  lemma ReinitializationConservesIff(s: Storage, auth: set<Address>, admin: Address, metadata: Metadata)
    requires admin in auth && s.Supply() == Sum(s.balances)
    ensures var after := Step(s, auth, Initialize(admin, metadata)).value;
      after.Supply() == Sum(after.balances) <==> s.Supply() == 0
  {
  }

  lemma RunGrows(calls: seq<Invocation>, auth: set<Address>, call: Call)
    ensures Run(calls + [Invocation(auth, call)]) == After(Run(calls), Step(Run(calls), auth, call))
    ensures AllCovered(calls + [Invocation(auth, call)])
      <==> AllCovered(calls) && Covered(Run(calls), Invocation(auth, call))
  {
    assert (calls + [Invocation(auth, call)])[..|calls|] == calls;
  }

  /** A run that breaks the law: initialize, mint five, initialize again. The supply is zero and the
      balances sum up to five. */
  lemma ReinitializationExample(a: Address, metadata: Metadata)
    ensures var run := [Invocation({a}, Initialize(a, metadata)), Invocation({a}, Mint(a, 5)),
                        Invocation({a}, Initialize(a, metadata))];
      Run(run).Supply() == 0 && Sum(Run(run).balances) == 5
  {
    var first, second := Initialize(a, metadata), Mint(a, 5);
    var i, j := Invocation({a}, first), Invocation({a}, second);
    RunGrows([], {a}, first);
    RunGrows([] + [i], {a}, second);
    RunGrows([] + [i] + [j], {a}, first);
    assert [] + [i] + [j] + [i] == [i, j, i];
    SumUpdate(map[], a, 5);
    assert Run([] + [i] + [j]).balances == map[][a := 5];
  }

  // ---------------------------------------------------------------- bounds

  /** Storage only ever holds i128 values, whatever amounts are asked for. */
  lemma {:induction false} RunTyped(calls: seq<Invocation>)
    ensures Run(calls).Typed()
  {
    if calls != [] {
      RunTyped(calls[..|calls| - 1]);
    }
  }

  /** The guards of a call, as they stand before it: it goes through exactly when they hold. */
  predicate GoesThrough(s: Storage, c: Invocation) {
    match c.call
    case Initialize(admin, _) => admin in c.auth
    case Mint(to, amount) =>
      && s.admin.Some? && s.admin.value in c.auth && s.totalSupply.Some?
      && InI128(At(s.balances, to) + amount) && InI128(s.totalSupply.value + amount)
    case Transfer(from, to, amount) =>
      && from in c.auth && amount <= At(s.balances, from)
      && InI128(At(s.balances, from) - amount) && (from == to || InI128(At(s.balances, to) + amount))
  }

  lemma GoesThroughIff(s: Storage, c: Invocation)
    ensures Step(s, c.auth, c.call).Success? <==> GoesThrough(s, c)
  {
  }

  /** What a caller can check before a call: if it goes through at all, it takes no more out of the account
      it credits than is there. A transfer within one account takes nothing. */
  predicate Covered(s: Storage, c: Invocation) {
    GoesThrough(s, c) ==>
      match c.call
      case Initialize(_, _) => true
      case Mint(to, amount) => -amount <= At(s.balances, to)
      case Transfer(from, to, amount) => from == to || -amount <= At(s.balances, to)
  }

  /** Every call of a run was covered when it was made. */
  predicate AllCovered(calls: seq<Invocation>) {
    calls == [] || (AllCovered(calls[..|calls| - 1]) && Covered(Run(calls[..|calls| - 1]), calls[|calls| - 1]))
  }

  /** No balance was negative at any point of a run. */
  ghost predicate NeverNegative(calls: seq<Invocation>) {
    NonNegative(Run(calls).balances) && (calls == [] || NeverNegative(calls[..|calls| - 1]))
  }

  ghost predicate ReachedCovered(s: Storage) {
    exists calls :: Initializations(calls) <= 1 && AllCovered(calls) && Run(calls) == s
  }

  /** One call keeps every balance non-negative exactly when it is covered. */
  lemma StepKeepsNonNegativeIff(s: Storage, c: Invocation)
    requires NonNegative(s.balances)
    ensures NonNegative(After(s, Step(s, c.auth, c.call)).balances) <==> Covered(s, c)
  {
    GoesThroughIff(s, c);
    if Step(s, c.auth, c.call).Success? {
      match c.call
      case Initialize(_, _) =>
      case Mint(to, amount) => MintKeepsNonNegativeIff(s, c.auth, to, amount);
      case Transfer(from, to, amount) => TransferKeepsNonNegativeIff(s, c.auth, from, to, amount);
    }
  }

  /** No balance of a run is ever negative exactly when every call is covered at its time. */
  lemma {:induction false} RunNeverNegativeIff(calls: seq<Invocation>)
    ensures NeverNegative(calls) <==> AllCovered(calls)
  {
    if calls != [] {
      var init, last := calls[..|calls| - 1], calls[|calls| - 1];
      RunNeverNegativeIff(init);
      if NeverNegative(init) {
        StepKeepsNonNegativeIff(Run(init), last);
      }
    }
  }

  ghost predicate AmountsNonNegative(calls: seq<Invocation>) {
    forall c :: c in calls ==> (c.call.Mint? || c.call.Transfer?) ==> c.call.amount >= 0
  }

  /** Runs with non-negative amounts are covered. */
  lemma {:induction false} NonNegativeAmountsCovered(calls: seq<Invocation>)
    requires AmountsNonNegative(calls)
    ensures AllCovered(calls)
  {
    if calls != [] {
      var init, last := calls[..|calls| - 1], calls[|calls| - 1];
      assert last in calls;
      assert forall c :: c in init ==> c in calls;
      NonNegativeAmountsCovered(init);
      RunNeverNegativeIff(init);
      assert NonNegative(Run(init).balances);
    }
  }

  /** Every balance stays between zero and the supply, which fits an i128. */
  lemma BalancesBounded(calls: seq<Invocation>)
    requires Initializations(calls) <= 1 && AllCovered(calls)
    ensures NonNegative(Run(calls).balances)
    ensures forall a :: 0 <= At(Run(calls).balances, a) <= Run(calls).Supply() <= I128_MAX
  {
    RunNeverNegativeIff(calls);
    SupplyIsSum(calls);
    RunTyped(calls);
    forall a ensures At(Run(calls).balances, a) <= Run(calls).Supply() {
      SharesBelowSum(Run(calls).balances, a, a);
    }
  }

  /** In such a run no transfer can overflow: it succeeds exactly when the sender authorized it and
      has the amount. Minting overflows exactly when the supply does. */
  lemma OnlyMintOverflows(calls: seq<Invocation>, auth: set<Address>, from: Address, to: Address, amount: nat)
    requires Initializations(calls) <= 1 && AllCovered(calls)
    ensures Step(Run(calls), auth, Transfer(from, to, amount)).Success?
      <==> from in auth && amount <= At(Run(calls).balances, from)
    ensures Step(Run(calls), auth, Transfer(from, to, amount)) != Failure(Overflow)
    ensures Step(Run(calls), auth, Mint(to, amount)) == Failure(Overflow)
      <==> Run(calls).admin.Some? && Run(calls).admin.value in auth && Run(calls).Supply() + amount > I128_MAX
  {
    var s := Run(calls);
    BalancesBounded(calls);
    SupplyIsSum(calls);
    SharesBelowSum(s.balances, from, to);
    AdminHasSupply(calls);
    assert At(s.balances, to) <= s.Supply();
  }

  /** The administrator and the supply are stored together. */
  lemma {:induction false} AdminHasSupply(calls: seq<Invocation>)
    ensures Run(calls).admin.Some? <==> Run(calls).totalSupply.Some?
  {
    if calls != [] {
      AdminHasSupply(calls[..|calls| - 1]);
    }
  }

  /** The sign of an amount is not checked: a transfer keeps every balance non-negative exactly when
      it moves a non-negative amount, moves within one account, or takes back no more than the
      receiver has. */
  lemma TransferKeepsNonNegativeIff(s: Storage, auth: set<Address>, from: Address, to: Address, amount: int)
    requires NonNegative(s.balances)
    requires Step(s, auth, Transfer(from, to, amount)).Success?
    ensures NonNegative(Step(s, auth, Transfer(from, to, amount)).value.balances)
      <==> amount >= 0 || from == to || -amount <= At(s.balances, to)
  {
    var after := Step(s, auth, Transfer(from, to, amount)).value.balances;
    assert to in after;
    assert from in after;
  }

  /** Nor is it by a mint, which keeps every balance non-negative exactly when it takes back no more
      than the account has. */
  lemma MintKeepsNonNegativeIff(s: Storage, auth: set<Address>, to: Address, amount: int)
    requires NonNegative(s.balances)
    requires Step(s, auth, Mint(to, amount)).Success?
    ensures NonNegative(Step(s, auth, Mint(to, amount)).value.balances) <==> -amount <= At(s.balances, to)
  {
    assert to in Step(s, auth, Mint(to, amount)).value.balances;
  }

  /** The smallest mint that does not. */
  lemma NegativeMintExample(admin: Address, metadata: Metadata, to: Address)
    ensures var s := Step(EMPTY, {admin}, Initialize(admin, metadata)).value;
      var after := Step(s, {admin}, Mint(to, -1));
      after.Success? && At(after.value.balances, to) == -1
  {
  }

  /** The smallest transfer that does not. */
  lemma NegativeTransferExample()
    ensures var after := Step(EMPTY, {"a"}, Transfer("a", "b", -1));
      after.Success? && At(after.value.balances, "b") == -1
  {
    assert "a" != "b" by { assert "a"[0] != "b"[0]; }
  }
}
