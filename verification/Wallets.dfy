/** The list of wallets in the configuration, and what every wallet command does to it. */
module Wallets {
  import opened Wrappers

  datatype RotationRecord = RotationRecord(
    rotatedAt: string, previousPublicKey: string, previousNetwork: string, previousFunded: bool,
    previousSecretKey: Option<string>)

  datatype Wallet = Wallet(
    name: string, publicKey: string, secretKey: Option<string>, network: string, createdAt: string,
    funded: bool, rotationHistory: seq<RotationRecord>)

  // ---------------------------------------------------------------- names

  /** The first wallet of that name, or the end of the list. */
  function Position(wallets: seq<Wallet>, name: string): (i: nat)
    ensures i <= |wallets|
    ensures i < |wallets| ==> wallets[i].name == name
    ensures forall j :: 0 <= j < i ==> wallets[j].name != name
  {
    if wallets == [] || wallets[0].name == name then 0 else 1 + Position(wallets[1..], name)
  }

  predicate HasName(wallets: seq<Wallet>, name: string) {
    Position(wallets, name) < |wallets|
  }

  predicate NamesDistinct(wallets: seq<Wallet>) {
    forall i, j | 0 <= i < j < |wallets| :: wallets[i].name != wallets[j].name
  }

  lemma NameAt(wallets: seq<Wallet>, i: nat)
    requires i < |wallets|
    ensures HasName(wallets, wallets[i].name)
    ensures NamesDistinct(wallets) ==> Position(wallets, wallets[i].name) == i
  {
  }

  /** `retain(|w| w.name != name)` */
  function Without(wallets: seq<Wallet>, name: string): seq<Wallet> {
    if wallets == [] then [] else
      var last := wallets[|wallets| - 1];
      Without(wallets[..|wallets| - 1], name) + if last.name != name then [last] else []
  }

  lemma {:induction false} WithoutAbsent(wallets: seq<Wallet>, name: string)
    requires forall i | 0 <= i < |wallets| :: wallets[i].name != name
    ensures Without(wallets, name) == wallets
  {
    if wallets != [] {
      WithoutAbsent(wallets[..|wallets| - 1], name);
    }
  }

  /** Among distinct names, one wallet at most goes. */
  lemma {:induction false} WithoutOne(wallets: seq<Wallet>, i: nat)
    requires i < |wallets| && NamesDistinct(wallets)
    ensures Without(wallets, wallets[i].name) == wallets[..i] + wallets[i + 1..]
  {
    var before := wallets[..|wallets| - 1];
    if i == |wallets| - 1 {
      WithoutAbsent(before, wallets[i].name);
    } else {
      WithoutOne(before, i);
      assert before[..i] == wallets[..i] && before[i + 1..] + [wallets[|wallets| - 1]] == wallets[i + 1..];
    }
  }

  lemma {:induction false} WithoutShrinksIff(wallets: seq<Wallet>, name: string)
    ensures |Without(wallets, name)| <= |wallets|
    ensures |Without(wallets, name)| < |wallets| <==> exists i :: 0 <= i < |wallets| && wallets[i].name == name
  {
    if wallets != [] {
      WithoutShrinksIff(wallets[..|wallets| - 1], name);
    }
  }

  // ---------------------------------------------------------------- what a command does to the list

  datatype Effect =
    | Append(entries: seq<Wallet>)
    | Remove(name: string)
    | Rename(oldName: string, newName: string)
    | Rotate(name: string, publicKey: string, secret: string, network: string, now: string, keepSecret: bool,
             funded: bool)
    | Fund(name: string)
    | Adopt(name: string, publicKey: string, network: string, newSecret: Option<Option<string>>)

  predicate Allowed(wallets: seq<Wallet>, e: Effect) {
    match e
    case Append(entries) =>
      && NamesDistinct(entries)
      && forall i | 0 <= i < |entries| :: !HasName(wallets, entries[i].name) && entries[i].rotationHistory == []
    case Rename(oldName, newName) => HasName(wallets, oldName) && !HasName(wallets, newName)
    case _ => HasName(wallets, e.name)
  }

  function Rotated(w: Wallet, e: Effect): Wallet
    requires e.Rotate?
  {
    var record := RotationRecord(e.now, w.publicKey, w.network, w.funded, if e.keepSecret then w.secretKey else None);
    Wallet(w.name, e.publicKey, Some(e.secret), e.network, w.createdAt, e.funded, w.rotationHistory + [record])
  }

  function Apply(wallets: seq<Wallet>, e: Effect): seq<Wallet>
    requires Allowed(wallets, e)
  {
    match e
    case Append(entries) => wallets + entries
    case Remove(name) => Without(wallets, name)
    case Rename(oldName, newName) =>
      var i := Position(wallets, oldName);
      wallets[i := wallets[i].(name := newName)]
    case Rotate(name, _, _, _, _, _, _) =>
      var i := Position(wallets, name);
      wallets[i := Rotated(wallets[i], e)]
    case Fund(name) =>
      var i := Position(wallets, name);
      wallets[i := wallets[i].(funded := true)]
    case Adopt(name, publicKey, network, secret) =>
      var i := Position(wallets, name);
      var kept := if secret.Some? then secret.value else wallets[i].secretKey;
      wallets[i := wallets[i].(publicKey := publicKey, network := network, secretKey := kept)]
  }

  /** Names stay pairwise distinct. */
  lemma ApplyKeepsNamesDistinct(wallets: seq<Wallet>, e: Effect)
    requires NamesDistinct(wallets) && Allowed(wallets, e)
    ensures NamesDistinct(Apply(wallets, e))
  {
    match e
    case Append(entries) =>
      forall i, j | 0 <= i < |wallets| && 0 <= j < |entries| ensures wallets[i].name != entries[j].name {
        NameAt(wallets, i);
      }
    case Remove(name) =>
      var i := Position(wallets, name);
      WithoutOne(wallets, i);
      assert NamesDistinct(wallets[..i] + wallets[i + 1..]);
    case Rename(_, newName) =>
      forall i | 0 <= i < |wallets| ensures wallets[i].name != newName {
        NameAt(wallets, i);
      }
    case _ =>
  }

  /** Renaming back restores the list, in its order. */
  lemma RenameBack(wallets: seq<Wallet>, oldName: string, newName: string)
    requires Allowed(wallets, Rename(oldName, newName))
    requires NamesDistinct(wallets)
    ensures Allowed(Apply(wallets, Rename(oldName, newName)), Rename(newName, oldName))
    ensures Apply(Apply(wallets, Rename(oldName, newName)), Rename(newName, oldName)) == wallets
  {
    var renamed := Apply(wallets, Rename(oldName, newName));
    var i := Position(wallets, oldName);
    ApplyKeepsNamesDistinct(wallets, Rename(oldName, newName));
    NameAt(renamed, i);
  }

  /** Removing a wallet just added restores the list. */
  lemma RemoveAdded(wallets: seq<Wallet>, w: Wallet)
    requires NamesDistinct(wallets) && Allowed(wallets, Append([w]))
    ensures Allowed(wallets + [w], Remove(w.name)) && Apply(wallets + [w], Remove(w.name)) == wallets
  {
    ApplyKeepsNamesDistinct(wallets, Append([w]));
    NameAt(wallets + [w], |wallets|);
    assert (wallets + [w])[..|wallets|] == wallets;
    assert [w][0] == w && !HasName(wallets, w.name);
    WithoutAbsent(wallets, w.name);
  }

  // ---------------------------------------------------------------- the keys a wallet has held

  /** The keys of the rotation history, oldest first, and then the current one. */
  function KeyChain(w: Wallet): seq<string> {
    var history := w.rotationHistory;
    seq(|history|, i requires 0 <= i < |history| => history[i].previousPublicKey) + [w.publicKey]
  }

  /** An observer who sees every command and writes down, under its current name, each key a wallet
      gets. */
  function Observe(held: map<string, seq<string>>, e: Effect): map<string, seq<string>> {
    match e
    case Append(entries) => ObserveAll(held, entries)
    case Remove(name) => held - {name}
    case Rename(oldName, newName) =>
      if oldName in held then (held - {oldName})[newName := held[oldName]] else held
    case Rotate(name, publicKey, _, _, _, _, _) => if name in held then held[name := held[name] + [publicKey]] else held
    case Fund(_) => held
    case Adopt(name, publicKey, _, _) =>
      if name in held && held[name] != [] && held[name][|held[name]| - 1] != publicKey
      then held[name := held[name] + [publicKey]]
      else held
  }

  function ObserveAll(held: map<string, seq<string>>, entries: seq<Wallet>): map<string, seq<string>> {
    if entries == [] then held else
      var last := entries[|entries| - 1];
      ObserveAll(held, entries[..|entries| - 1])[last.name := [last.publicKey]]
  }

  ghost predicate ChainIs(w: Wallet, held: map<string, seq<string>>) {
    w.name in held && held[w.name] == KeyChain(w)
  }

  /** The notes hold exactly the chains of the wallets. */
  ghost predicate ChainsAre(wallets: seq<Wallet>, held: map<string, seq<string>>) {
    && (forall i | 0 <= i < |wallets| :: ChainIs(wallets[i], held))
    && (forall n | n in held :: HasName(wallets, n))
  }

  lemma {:induction false} ObserveAllChains(wallets: seq<Wallet>, held: map<string, seq<string>>, entries: seq<Wallet>)
    requires NamesDistinct(wallets + entries) && ChainsAre(wallets, held)
    requires forall i | 0 <= i < |entries| :: entries[i].rotationHistory == []
    ensures ChainsAre(wallets + entries, ObserveAll(held, entries))
  {
    if entries == [] {
      assert wallets + entries == wallets;
    } else {
      hide ChainsAre, HasName;
      var before, last := entries[..|entries| - 1], entries[|entries| - 1];
      var list := wallets + before;
      assert wallets + entries == list + [last];
      assert list == (wallets + entries)[..|list|];
      ObserveAllChains(wallets, held, before);
      ChainsGrow(list, ObserveAll(held, before), last);
    }
  }

  lemma ChainsGrow(wallets: seq<Wallet>, held: map<string, seq<string>>, w: Wallet)
    requires NamesDistinct(wallets + [w]) && ChainsAre(wallets, held) && w.rotationHistory == []
    ensures ChainsAre(wallets + [w], held[w.name := [w.publicKey]])
  {
    var list := wallets + [w];
    var notes := held[w.name := [w.publicKey]];
    forall i | 0 <= i < |list| ensures ChainIs(list[i], notes) {
      if i < |wallets| {
        assert ChainIs(wallets[i], held) && list[i].name != list[|wallets|].name;
      }
    }
    forall n | n in notes ensures HasName(list, n) {
      NameAt(list, if n == w.name then |wallets| else Position(wallets, n));
    }
  }

  /** Changing one wallet in place, under its name or a new one, changes one entry of the notes. */
  lemma ChainsUpdate(wallets: seq<Wallet>, held: map<string, seq<string>>, i: nat, w: Wallet,
                     notes: map<string, seq<string>>)
    requires i < |wallets| && NamesDistinct(wallets) && ChainsAre(wallets, held)
    requires w.name == wallets[i].name || !HasName(wallets, w.name)
    requires ChainIs(w, notes)
    requires forall n :: n in notes <==> n == w.name || (n in held && n != wallets[i].name)
    requires forall n | n in notes && n != w.name :: notes[n] == held[n]
    ensures ChainsAre(wallets[i := w], notes)
  {
    hide KeyChain;
    var list := wallets[i := w];
    forall j | 0 <= j < |list| ensures ChainIs(list[j], notes) {
      if j != i {
        NameAt(wallets, j);
        assert ChainIs(wallets[j], held) && wallets[j].name != wallets[i].name;
      }
    }
    forall n | n in notes ensures HasName(list, n) {
      NameAt(list, if n == w.name then i else Position(wallets, n));
    }
  }

  lemma ChainsShrink(wallets: seq<Wallet>, held: map<string, seq<string>>, i: nat)
    requires i < |wallets| && NamesDistinct(wallets) && ChainsAre(wallets, held)
    ensures ChainsAre(wallets[..i] + wallets[i + 1..], held - {wallets[i].name})
  {
    hide KeyChain;
    var list := wallets[..i] + wallets[i + 1..];
    var notes := held - {wallets[i].name};
    forall j | 0 <= j < |list| ensures ChainIs(list[j], notes) {
      var k := if j < i then j else j + 1;
      assert list[j] == wallets[k] && wallets[k].name != wallets[i].name;
      assert ChainIs(wallets[k], held);
    }
    forall n | n in notes ensures HasName(list, n) {
      var j := Position(wallets, n);
      NameAt(list, if j < i then j else j - 1);
    }
  }

  /** The only command that can lose a key is adopting an identity whose key is not the wallet's own. */
  predicate KeepsKeys(wallets: seq<Wallet>, e: Effect) {
    e.Adopt? && Allowed(wallets, e) ==> wallets[Position(wallets, e.name)].publicKey == e.publicKey
  }

  lemma RotatedChain(w: Wallet, e: Effect)
    requires e.Rotate?
    ensures KeyChain(Rotated(w, e)) == KeyChain(w) + [e.publicKey]
  {
    var r := Rotated(w, e);
    var n := |w.rotationHistory|;
    assert r.rotationHistory[..n] == w.rotationHistory && r.rotationHistory[n].previousPublicKey == w.publicKey;
  }

  lemma RotateKeepsChains(wallets: seq<Wallet>, held: map<string, seq<string>>, e: Effect)
    requires NamesDistinct(wallets) && ChainsAre(wallets, held) && e.Rotate? && Allowed(wallets, e)
    ensures ChainsAre(Apply(wallets, e), Observe(held, e))
  {
    hide KeyChain, Rotated;
    var i := Position(wallets, e.name);
    assert ChainIs(wallets[i], held);
    RotatedChain(wallets[i], e);
    assert Rotated(wallets[i], e).name == e.name by { RotatedName(wallets[i], e); }
    ChainsUpdate(wallets, held, i, Rotated(wallets[i], e), Observe(held, e));
  }

  lemma RotatedName(w: Wallet, e: Effect)
    requires e.Rotate?
    ensures Rotated(w, e).name == w.name
  {
  }

  lemma RenameKeepsChains(wallets: seq<Wallet>, held: map<string, seq<string>>, e: Effect)
    requires NamesDistinct(wallets) && ChainsAre(wallets, held) && e.Rename? && Allowed(wallets, e)
    ensures ChainsAre(Apply(wallets, e), Observe(held, e))
  {
    var i := Position(wallets, e.oldName);
    var w := wallets[i].(name := e.newName);
    assert ChainIs(wallets[i], held) && KeyChain(w) == KeyChain(wallets[i]);
    hide KeyChain;
    ChainsUpdate(wallets, held, i, w, Observe(held, e));
  }

  /** Funding, and adopting the key a wallet has, leave its chain alone. */
  lemma SameKeyKeepsChains(wallets: seq<Wallet>, held: map<string, seq<string>>, e: Effect)
    requires NamesDistinct(wallets) && ChainsAre(wallets, held) && (e.Fund? || e.Adopt?) && Allowed(wallets, e)
    requires KeepsKeys(wallets, e)
    ensures ChainsAre(Apply(wallets, e), Observe(held, e))
  {
    var i := Position(wallets, e.name);
    var w := Apply(wallets, e)[i];
    ChainEnds(wallets[i], w);
    assert ChainIs(wallets[i], held);
    hide KeyChain;
    ChainsUpdate(wallets, held, i, w, held);
  }

  lemma ChainEnds(w: Wallet, v: Wallet)
    ensures KeyChain(w) != [] && KeyChain(w)[|KeyChain(w)| - 1] == w.publicKey
    ensures w.rotationHistory == v.rotationHistory && w.publicKey == v.publicKey ==> KeyChain(w) == KeyChain(v)
  {
  }

  lemma ApplyKeepsChains(wallets: seq<Wallet>, held: map<string, seq<string>>, e: Effect)
    requires NamesDistinct(wallets) && ChainsAre(wallets, held) && Allowed(wallets, e)
    requires KeepsKeys(wallets, e)
    ensures ChainsAre(Apply(wallets, e), Observe(held, e))
  {
    match e
    case Append(entries) =>
      ApplyKeepsNamesDistinct(wallets, e);
      ObserveAllChains(wallets, held, entries);
    case Remove(name) =>
      hide ChainsAre;
      WithoutOne(wallets, Position(wallets, name));
      ChainsShrink(wallets, held, Position(wallets, name));
    case Rename(_, _) => RenameKeepsChains(wallets, held, e);
    case Rotate(_, _, _, _, _, _, _) => RotateKeepsChains(wallets, held, e);
    case _ => SameKeyKeepsChains(wallets, held, e);
  }

  /** Adopting an identity keeps the chain of keys exactly when it brings the key the wallet has. */
  lemma AdoptKeepsChainsIff(wallets: seq<Wallet>, held: map<string, seq<string>>, e: Effect)
    requires NamesDistinct(wallets) && ChainsAre(wallets, held) && e.Adopt? && Allowed(wallets, e)
    ensures ChainsAre(Apply(wallets, e), Observe(held, e)) <==> KeepsKeys(wallets, e)
  {
    if KeepsKeys(wallets, e) {
      SameKeyKeepsChains(wallets, held, e);
    } else {
      var i := Position(wallets, e.name);
      var w := Apply(wallets, e)[i];
      assert ChainIs(wallets[i], held);
      assert |Observe(held, e)[w.name]| == |KeyChain(w)| + 1;
      assert !ChainIs(Apply(wallets, e)[i], Observe(held, e));
    }
  }

  // ---------------------------------------------------------------- runs

  /** A command that is not allowed changes nothing. */
  function Next(wallets: seq<Wallet>, e: Effect): seq<Wallet> {
    if Allowed(wallets, e) then Apply(wallets, e) else wallets
  }

  /** The list after a run of commands that starts with no wallets. */
  function Run(effects: seq<Effect>): seq<Wallet> {
    if effects == [] then [] else Next(Run(effects[..|effects| - 1]), effects[|effects| - 1])
  }

  function Observed(effects: seq<Effect>): map<string, seq<string>> {
    if effects == [] then map[] else
      var before, e := effects[..|effects| - 1], effects[|effects| - 1];
      if Allowed(Run(before), e) then Observe(Observed(before), e) else Observed(before)
  }

  /** In every run no two wallets have the same name. */
  lemma {:induction false} RunKeepsNamesDistinct(effects: seq<Effect>)
    ensures NamesDistinct(Run(effects))
  {
    if effects != [] {
      var before, e := effects[..|effects| - 1], effects[|effects| - 1];
      RunKeepsNamesDistinct(before);
      if Allowed(Run(before), e) { ApplyKeepsNamesDistinct(Run(before), e); }
    }
  }

  predicate AllKeepKeys(effects: seq<Effect>) {
    effects == [] || (
      var before := effects[..|effects| - 1];
      AllKeepKeys(before) && KeepsKeys(Run(before), effects[|effects| - 1]))
  }

  /** In every run of wallet commands, across renames, the rotation history and the current key of every
      wallet are exactly the keys it has held, in order; and the observer follows no other wallet. */
  lemma {:induction false} RunKeepsKeyChains(effects: seq<Effect>)
    requires AllKeepKeys(effects)
    ensures ChainsAre(Run(effects), Observed(effects))
  {
    if effects != [] {
      hide Allowed, Apply, Observe, KeepsKeys, NamesDistinct;
      var before, e := effects[..|effects| - 1], effects[|effects| - 1];
      RunKeepsKeyChains(before);
      RunKeepsNamesDistinct(before);
      if Allowed(Run(before), e) { ApplyKeepsChains(Run(before), Observed(before), e); }
    }
  }

  /** A run without adopted identities loses no key. */
  lemma {:induction false} CommandsKeepKeys(effects: seq<Effect>)
    requires forall i | 0 <= i < |effects| :: !effects[i].Adopt?
    ensures AllKeepKeys(effects)
  {
    if effects != [] {
      CommandsKeepKeys(effects[..|effects| - 1]);
    }
  }

  /** The smallest run that loses a key: a wallet is created and an identity of its name is adopted. */
  lemma AdoptLosesAKey(w: Wallet, key: string)
    requires w.rotationHistory == [] && key != w.publicKey
    ensures
      var effects := [Append([w]), Adopt(w.name, key, w.network, None)];
      && Run(effects) == [w.(publicKey := key)]
      && Observed(effects) == map[w.name := [w.publicKey, key]]
  {
    var first, second := Append([w]), Adopt(w.name, key, w.network, None);
    var effects := [first, second];
    assert effects[..1] == [first] && [first][..0] == [] && [w][..0] == [];
    assert Run([first]) == [] + [w] == [w];
    assert Observed([first]) == ObserveAll(map[], [w]) == map[w.name := [w.publicKey]];
    NameAt([w], 0);
    assert effects[1] == second && Allowed([w], second);
    assert [w.publicKey] + [key] == [w.publicKey, key];
    assert Observe(Observed([first]), second) == map[w.name := [w.publicKey, key]];
    assert Observed(effects) == Observe(Observed([first]), second);
  }

  // ---------------------------------------------------------------- what each command changes

  ghost predicate Named(wallets: seq<Wallet>, name: string) {
    exists w :: w in wallets && w.name == name
  }

  lemma HasNameIff(wallets: seq<Wallet>, name: string)
    ensures HasName(wallets, name) <==> Named(wallets, name)
  {
    var i := Position(wallets, name);
    if w :| w in wallets && w.name == name {
      var j :| 0 <= j < |wallets| && wallets[j] == w;
      NameAt(wallets, j);
    }
    if i < |wallets| { assert wallets[i] in wallets; }
  }

  /** When a command may change the list. */
  lemma AllowedRules(wallets: seq<Wallet>, w: Wallet, oldName: string, newName: string)
    ensures Allowed(wallets, Append([w])) <==> !Named(wallets, w.name) && w.rotationHistory == []
    ensures Allowed(wallets, Rename(oldName, newName)) <==> Named(wallets, oldName) && !Named(wallets, newName)
    ensures Allowed(wallets, Remove(oldName)) <==> Named(wallets, oldName)
    ensures Allowed(wallets, Fund(oldName)) <==> Named(wallets, oldName)
  {
    HasNameIff(wallets, oldName);
    HasNameIff(wallets, newName);
    HasNameIff(wallets, w.name);
    hide HasName, Named;
    assert [w][0] == w;
  }

  lemma FirstNamed(before: seq<Wallet>, w: Wallet, after: seq<Wallet>)
    requires !Named(before, w.name)
    ensures Position(before + [w] + after, w.name) == |before|
    ensures HasName(before + [w] + after, w.name)
    ensures forall v: Wallet :: (before + [w] + after)[|before| := v] == before + [v] + after
  {
    var list := before + [w] + after;
    assert list[|before|] == w;
    NameAt(list, |before|);
    assert forall j | 0 <= j < |before| :: list[j] == before[j] && before[j] in before;
  }

  /** Renaming changes the name of the first wallet that has it, funding its mark, and adopting an identity
      its keys and network; everything else stays, in its place. */
  lemma InPlaceRules(before: seq<Wallet>, w: Wallet, after: seq<Wallet>, name: string, key: string, network: string,
                     secret: Option<string>)
    requires !Named(before, w.name)
    ensures var list := before + [w] + after;
      && (Allowed(list, Rename(w.name, name)) ==> Apply(list, Rename(w.name, name)) == before + [
            Wallet(name, w.publicKey, w.secretKey, w.network, w.createdAt, w.funded, w.rotationHistory)] + after)
      && Allowed(list, Fund(w.name)) && Apply(list, Fund(w.name)) == before + [
           Wallet(w.name, w.publicKey, w.secretKey, w.network, w.createdAt, true, w.rotationHistory)] + after
      && Allowed(list, Adopt(w.name, key, network, None))
      && Apply(list, Adopt(w.name, key, network, None)) == before + [
           Wallet(w.name, key, w.secretKey, network, w.createdAt, w.funded, w.rotationHistory)] + after
      && Allowed(list, Adopt(w.name, key, network, Some(secret)))
      && Apply(list, Adopt(w.name, key, network, Some(secret))) == before + [
           Wallet(w.name, key, secret, network, w.createdAt, w.funded, w.rotationHistory)] + after
  {
    hide Named;
    FirstNamed(before, w, after);
  }

  /** A rotated wallet has the new key, the new secret and the new network under its old name and date. What it
      had goes to the end of its history: always key, network and mark, the secret only when it is kept. */
  lemma RotateRules(before: seq<Wallet>, w: Wallet, after: seq<Wallet>, e: Effect)
    requires !Named(before, w.name) && e.Rotate? && e.name == w.name
    ensures Allowed(before + [w] + after, e)
    ensures var rotated := Apply(before + [w] + after, e);
      && |rotated| == |before| + 1 + |after|
      && rotated[..|before|] == before && rotated[|before| + 1..] == after
      && var v := rotated[|before|];
      && v.name == w.name && v.createdAt == w.createdAt
      && v.publicKey == e.publicKey && v.secretKey == Some(e.secret) && v.network == e.network && v.funded == e.funded
      && |v.rotationHistory| == |w.rotationHistory| + 1
      && v.rotationHistory[..|w.rotationHistory|] == w.rotationHistory
      && var record := v.rotationHistory[|w.rotationHistory|];
      && record.rotatedAt == e.now
      && record.previousPublicKey == w.publicKey && record.previousNetwork == w.network
      && record.previousFunded == w.funded
      && (e.keepSecret ==> record.previousSecretKey == w.secretKey)
      && (!e.keepSecret ==> record.previousSecretKey == None)
  {
    hide Named;
    FirstNamed(before, w, after);
  }

  /** Adding puts wallets behind the others; removing takes a wallet out from between its neighbours. */
  lemma ListRules(before: seq<Wallet>, w: Wallet, after: seq<Wallet>)
    requires NamesDistinct(before + [w] + after)
    ensures Allowed(before + [w] + after, Remove(w.name))
    ensures Apply(before + [w] + after, Remove(w.name)) == before + after
    ensures Allowed(before, Append([w])) ==> Apply(before, Append([w])) == before + [w]
  {
    var list := before + [w] + after;
    assert list[|before|] == w;
    NameAt(list, |before|);
    WithoutOne(list, |before|);
    assert list[..|before|] == before && list[|before| + 1..] == after;
  }
}
