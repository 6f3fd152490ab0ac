/** The wallet commands, each of which reads the configuration, changes the list, and saves it. A command
    that fails anywhere leaves the saved list as it was. */
module WalletStore {
  import opened Strings
  import opened Wallets
  import opened Wrappers

  datatype Problem =
    | InvalidName | AlreadyExists | NotFound
    | KeyFailed | EncryptionFailed | BundleAsKey | InvalidSecretKey | InvalidPublicKey
    | UnknownNetwork | FaucetUnavailable | FundingFailed
    | SnapshotFailed | UnsupportedVersion | EmptyBackup | DuplicateInBackup
    | SaveFailed

  datatype Outcome = Done | Failed(problem: Problem)

  /** One check of a command, and what follows when it passes. */
  function Check(passes: bool, problem: Problem, next: Outcome): Outcome {
    if passes then next else Failed(problem)
  }

  datatype Keypair = Keypair(publicKey: string, secretKey: string)

  /** The clock, the faucet's answer for each account, and whether the configuration can be written. */
  datatype World = World(now: string, faucet: string -> bool, saved: bool)

  /** What is stored for a secret: the secret, or what encrypting it gave. */
  function Stored(secretKey: string, encrypted: Option<Option<string>>): Option<string> {
    if encrypted.None? then Some(secretKey) else encrypted.value
  }

  datatype Network = Network(hasFaucet: bool)

  datatype BackupEntry = BackupEntry(
    name: string, publicKey: string, secretKey: Option<string>, network: string, createdAt: string, funded: bool)

  datatype Backup = Backup(version: string, wallets: seq<BackupEntry>)

  function ImportedWallet(e: BackupEntry): Wallet {
    Wallet(e.name, e.publicKey, e.secretKey, e.network, e.createdAt, e.funded, [])
  }

  function Imported(entries: seq<BackupEntry>): seq<Wallet> {
    seq(|entries|, i requires 0 <= i < |entries| => ImportedWallet(entries[i]))
  }

  predicate EntryNamesDistinct(entries: seq<BackupEntry>) {
    forall i, j | 0 <= i < j < |entries| :: entries[i].name != entries[j].name
  }

  predicate IsBase32(c: char) {
    'A' <= c <= 'Z' || '2' <= c <= '7'
  }

  predicate IsKey(prefix: char, key: string) {
    |key| == 56 && key[0] == prefix && forall i | 0 <= i < |key| :: IsBase32(key[i])
  }

  /** What the commands take for granted: character classes, key derivation, and the configured networks. */
  datatype Settings = Settings(
    isAlphanumeric: char -> bool,
    isBundle: string -> bool,
    publicKeyOf: string -> Option<string>,
    network: string,
    networks: map<string, Network>)
  {
    predicate IsName(name: string) {
      name != "" && forall i | 0 <= i < |name| :: isAlphanumeric(name[i]) || name[i] in {'-', '_'}
    }

    predicate IsSecret(secret: string) {
      if ':' in secret then isBundle(secret) else IsKey('S', secret)
    }

    predicate IsNetwork(name: string) {
      name in networks || name in {"testnet", "mainnet", "docker-testnet"}
    }

    predicate FaucetOf(name: string) {
      name in networks && networks[name].hasFaucet
    }

    function Chosen(networkOverride: Option<string>): string {
      if networkOverride.Some? then networkOverride.value else network
    }

    predicate IsEntry(e: BackupEntry) {
      && IsName(e.name)
      && IsKey('G', e.publicKey)
      && (e.secretKey.Some? ==> IsSecret(e.secretKey.value))
      && IsNetwork(e.network)
    }

    function EntryOutcome(wallets: seq<Wallet>, e: BackupEntry): Outcome {
      Check(IsName(e.name), InvalidName,
      Check(IsKey('G', e.publicKey), InvalidPublicKey,
      Check(e.secretKey.Some? ==> IsSecret(e.secretKey.value), InvalidSecretKey,
      Check(IsNetwork(e.network), UnknownNetwork,
      Check(!HasName(wallets, e.name), AlreadyExists, Done)))))
    }

    /** The first entry that fails decides. */
    function EntriesOutcome(wallets: seq<Wallet>, entries: seq<BackupEntry>): Outcome {
      if entries == [] then Done else
        var before := EntriesOutcome(wallets, entries[..|entries| - 1]);
        if before.Done? then EntryOutcome(wallets, entries[|entries| - 1]) else before
    }

    function ImportOutcome(wallets: seq<Wallet>, backup: Backup, saved: bool): Outcome {
      Check(backup.version in {"1", "2"}, UnsupportedVersion,
      Check(backup.wallets != [], EmptyBackup,
      Check(EntryNamesDistinct(backup.wallets), DuplicateInBackup,
        var entries := EntriesOutcome(wallets, backup.wallets);
        if entries.Done? then Check(saved, SaveFailed, Done) else entries)))
    }

    lemma {:induction false} EntriesOutcomeOkIff(wallets: seq<Wallet>, entries: seq<BackupEntry>)
      ensures EntriesOutcome(wallets, entries).Done? <==>
        forall i | 0 <= i < |entries| :: IsEntry(entries[i]) && !HasName(wallets, entries[i].name)
    {
      hide IsName, IsKey, IsSecret, IsNetwork, HasName;
      if entries != [] {
        EntriesOutcomeOkIff(wallets, entries[..|entries| - 1]);
      }
    }

    /** A backup is imported exactly when every entry is valid and new. */
    lemma ImportSucceedsIff(wallets: seq<Wallet>, backup: Backup, saved: bool)
      ensures ImportOutcome(wallets, backup, saved).Done? <==>
        && saved
        && backup.version in {"1", "2"}
        && backup.wallets != []
        && EntryNamesDistinct(backup.wallets)
        && forall i | 0 <= i < |backup.wallets| ::
             IsEntry(backup.wallets[i]) && !HasName(wallets, backup.wallets[i].name)
    {
      hide IsEntry, HasName;
      EntriesOutcomeOkIff(wallets, backup.wallets);
    }
  }

  // ---------------------------------------------------------------- the commands

  class Store {
    const settings: Settings
    var wallets: seq<Wallet>

    constructor (settings: Settings)
      ensures this.settings == settings && wallets == []
    {
      this.settings := settings;
      wallets := [];
    }

    method Save(cfg: seq<Wallet>, world: World) returns (r: Outcome)
      modifies this
      ensures r == Check(world.saved, SaveFailed, Done)
      ensures wallets == if world.saved then cfg else old(wallets)
    {
      if !world.saved {
        return Failed(SaveFailed);
      }
      wallets := cfg;
      r := Done;
    }

    method Create(name: string, fund: bool, networkOverride: Option<string>, generated: Option<Keypair>,
                  encrypted: Option<Option<string>>, world: World)
      returns (r: Outcome)
      modifies this
      ensures r ==
        Check(settings.IsName(name), InvalidName,
        Check(!HasName(old(wallets), name), AlreadyExists,
        Check(generated.Some?, KeyFailed,
        Check(generated.Some? && Stored(generated.value.secretKey, encrypted).Some?, EncryptionFailed,
        Check(fund ==> settings.Chosen(networkOverride) in settings.networks, UnknownNetwork,
        Check(world.saved, SaveFailed, Done))))))
      ensures r.Failed? ==> wallets == old(wallets)
      ensures r.Done? ==>
        var network, keys := settings.Chosen(networkOverride), generated.value;
        var funded := fund && (settings.FaucetOf(network) || network != "mainnet") && world.faucet(keys.publicKey);
        var stored := Stored(keys.secretKey, encrypted);
        var e := Append([Wallet(name, keys.publicKey, stored, network, world.now, funded, [])]);
        Allowed(old(wallets), e) && wallets == Apply(old(wallets), e)
    {
      var cfg := wallets;
      if !settings.IsName(name) {
        return Failed(InvalidName);
      }
      if HasName(cfg, name) {
        return Failed(AlreadyExists);
      }
      var network := settings.Chosen(networkOverride);
      if generated.None? {
        return Failed(KeyFailed);
      }
      var keys := generated.value;
      var stored := Stored(keys.secretKey, encrypted);
      if stored.None? {
        return Failed(EncryptionFailed);
      }
      ghost var before := cfg;
      cfg := cfg + [Wallet(name, keys.publicKey, stored, network, world.now, false, [])];
      AppendedAt(before, cfg[|before|]);
      if fund {
        if network !in settings.networks {
          return Failed(UnknownNetwork);
        }
        if settings.FaucetOf(network) || network != "mainnet" {
          if world.faucet(keys.publicKey) {
            var i := Position(cfg, name);
            cfg := cfg[i := cfg[i].(funded := true)];
          }
        }
      }
      r := Save(cfg, world);
    }

    method ImportFromMnemonic(name: string, networkOverride: Option<string>, recovered: Option<Keypair>,
                              encrypted: Option<Option<string>>, world: World)
      returns (r: Outcome)
      modifies this
      ensures r ==
        Check(settings.IsName(name), InvalidName,
        Check(!HasName(old(wallets), name), AlreadyExists,
        Check(recovered.Some?, KeyFailed,
        Check(recovered.Some? && Stored(recovered.value.secretKey, encrypted).Some?, EncryptionFailed,
        Check(world.saved, SaveFailed, Done)))))
      ensures r.Failed? ==> wallets == old(wallets)
      ensures r.Done? ==>
        var network, keys := settings.Chosen(networkOverride), recovered.value;
        var stored := Stored(keys.secretKey, encrypted);
        var e := Append([Wallet(name, keys.publicKey, stored, network, world.now, false, [])]);
        Allowed(old(wallets), e) && wallets == Apply(old(wallets), e)
    {
      var cfg := wallets;
      if !settings.IsName(name) {
        return Failed(InvalidName);
      }
      if HasName(cfg, name) {
        return Failed(AlreadyExists);
      }
      var network := settings.Chosen(networkOverride);
      if recovered.None? {
        return Failed(KeyFailed);
      }
      var stored := Stored(recovered.value.secretKey, encrypted);
      if stored.None? {
        return Failed(EncryptionFailed);
      }
      var wallet := Wallet(name, recovered.value.publicKey, stored, network, world.now, false, []);
      AppendedAt(cfg, wallet);
      r := Save(cfg + [wallet], world);
    }

    method ImportFromSecretKey(name: string, secretKey: string, networkOverride: Option<string>,
                               encrypted: Option<Option<string>>, world: World)
      returns (r: Outcome)
      modifies this
      ensures r ==
        Check(':' !in secretKey, BundleAsKey,
        Check(IsKey('S', secretKey), InvalidSecretKey,
        Check(settings.IsName(name), InvalidName,
        Check(!HasName(old(wallets), name), AlreadyExists,
        Check(settings.publicKeyOf(secretKey).Some?, InvalidSecretKey,
        Check(Stored(secretKey, encrypted).Some?, EncryptionFailed,
        Check(world.saved, SaveFailed, Done)))))))
      ensures r.Failed? ==> wallets == old(wallets)
      ensures r.Done? ==>
        var network, publicKey := settings.Chosen(networkOverride), settings.publicKeyOf(secretKey).value;
        var e := Append([Wallet(name, publicKey, Stored(secretKey, encrypted), network, world.now, false, [])]);
        Allowed(old(wallets), e) && wallets == Apply(old(wallets), e)
    {
      if ':' in secretKey {
        return Failed(BundleAsKey);
      }
      if !settings.IsSecret(secretKey) {
        return Failed(InvalidSecretKey);
      }
      var cfg := wallets;
      if !settings.IsName(name) {
        return Failed(InvalidName);
      }
      if HasName(cfg, name) {
        return Failed(AlreadyExists);
      }
      var publicKey := settings.publicKeyOf(secretKey);
      if publicKey.None? {
        return Failed(InvalidSecretKey);
      }
      var network := settings.Chosen(networkOverride);
      var stored := Stored(secretKey, encrypted);
      if stored.None? {
        return Failed(EncryptionFailed);
      }
      var wallet := Wallet(name, publicKey.value, stored, network, world.now, false, []);
      AppendedAt(cfg, wallet);
      r := Save(cfg + [wallet], world);
    }

    method FundWallet(name: string, world: World) returns (r: Outcome)
      modifies this
      ensures r ==
        Check(settings.IsName(name), InvalidName,
        Check(settings.network == "mainnet" ==> settings.network in settings.networks, UnknownNetwork,
        Check(settings.network == "mainnet" ==> settings.FaucetOf(settings.network), FaucetUnavailable,
        Check(HasName(old(wallets), name), NotFound,
        Check(HasName(old(wallets), name) && world.faucet(old(wallets)[Position(old(wallets), name)].publicKey),
          FundingFailed,
        Check(world.saved, SaveFailed, Done))))))
      ensures r.Failed? ==> wallets == old(wallets)
      ensures r.Done? ==> Allowed(old(wallets), Fund(name)) && wallets == Apply(old(wallets), Fund(name))
    {
      if !settings.IsName(name) {
        return Failed(InvalidName);
      }
      var cfg := wallets;
      if settings.network == "mainnet" {
        if settings.network !in settings.networks {
          return Failed(UnknownNetwork);
        }
        if !settings.FaucetOf(settings.network) {
          return Failed(FaucetUnavailable);
        }
      }
      var i := Position(cfg, name);
      if i == |cfg| {
        return Failed(NotFound);
      }
      if !world.faucet(cfg[i].publicKey) {
        return Failed(FundingFailed);
      }
      r := Save(cfg[i := cfg[i].(funded := true)], world);
    }

    method RemoveWallet(name: string, world: World) returns (r: Outcome)
      modifies this
      ensures r ==
        Check(settings.IsName(name), InvalidName,
        Check(HasName(old(wallets), name), NotFound,
        Check(world.saved, SaveFailed, Done)))
      ensures r.Failed? ==> wallets == old(wallets)
      ensures r.Done? ==> Allowed(old(wallets), Remove(name)) && wallets == Apply(old(wallets), Remove(name))
    {
      if !settings.IsName(name) {
        return Failed(InvalidName);
      }
      var cfg := wallets;
      var before := |cfg|;
      WithoutShrinksIff(cfg, name);
      cfg := Without(cfg, name);
      if |cfg| == before {
        return Failed(NotFound);
      }
      r := Save(cfg, world);
    }

    /** What merging an account into another does to the list when asked to forget the source. */
    method ForgetMerged(from: string, world: World) returns (r: Outcome)
      modifies this
      ensures HasName(old(wallets), from) ==> r == Check(world.saved, SaveFailed, Done)
      ensures !HasName(old(wallets), from) ==> r == Done
      ensures wallets ==
        if HasName(old(wallets), from) && world.saved then Apply(old(wallets), Remove(from)) else old(wallets)
    {
      var cfg := wallets;
      var before := |cfg|;
      WithoutShrinksIff(cfg, from);
      cfg := Without(cfg, from);
      r := Done;
      if |cfg| < before {
        r := Save(cfg, world);
      }
    }

    method RenameWallet(oldName: string, newName: string, world: World) returns (r: Outcome)
      modifies this
      ensures r ==
        Check(settings.IsName(oldName) && settings.IsName(newName), InvalidName,
        Check(HasName(old(wallets), oldName), NotFound,
        Check(!HasName(old(wallets), newName), AlreadyExists,
        Check(world.saved, SaveFailed, Done))))
      ensures r.Failed? ==> wallets == old(wallets)
      ensures r.Done? ==>
        && Allowed(old(wallets), Rename(oldName, newName))
        && wallets == Apply(old(wallets), Rename(oldName, newName))
    {
      if !settings.IsName(oldName) {
        return Failed(InvalidName);
      }
      if !settings.IsName(newName) {
        return Failed(InvalidName);
      }
      var cfg := wallets;
      if !HasName(cfg, oldName) {
        return Failed(NotFound);
      }
      if HasName(cfg, newName) {
        return Failed(AlreadyExists);
      }
      var i := Position(cfg, oldName);
      r := Save(cfg[i := cfg[i].(name := newName)], world);
    }

    /** `snapshot` is None when no backup was asked for, and otherwise whether it could be written. */
    method RotateWallet(name: string, fund: bool, networkOverride: Option<string>, generated: Keypair,
                        encrypted: Option<Option<string>>, snapshot: Option<bool>, world: World)
      returns (r: Outcome)
      modifies this
      ensures r ==
        Check(settings.IsName(name), InvalidName,
        Check(HasName(old(wallets), name), NotFound,
        Check(snapshot != Some(false), SnapshotFailed,
        Check(Stored(generated.secretKey, encrypted).Some?, EncryptionFailed,
        Check(world.saved, SaveFailed, Done)))))
      ensures r.Failed? ==> wallets == old(wallets)
      ensures r.Done? ==>
        var was := old(wallets)[Position(old(wallets), name)];
        var network := if networkOverride.Some? then networkOverride.value else was.network;
        var funded := fund && network != "mainnet" && world.faucet(generated.publicKey);
        var stored := Stored(generated.secretKey, encrypted).value;
        var e := Rotate(name, generated.publicKey, stored, network, world.now, snapshot.Some?, funded);
        Allowed(old(wallets), e) && wallets == Apply(old(wallets), e)
      ensures r.Done? ==>
        var i := Position(old(wallets), name);
        && i < |wallets| == |old(wallets)|
        && wallets[..i] == old(wallets)[..i] && wallets[i + 1..] == old(wallets)[i + 1..]
        && wallets[i].publicKey == generated.publicKey
        && wallets[i].secretKey == (if encrypted == None then Some(generated.secretKey) else encrypted.value)
        && wallets[i].network == (if networkOverride == None then old(wallets)[i].network else networkOverride.value)
        && (snapshot == None ==> wallets[i].rotationHistory == old(wallets)[i].rotationHistory + [RotationRecord(
              world.now, old(wallets)[i].publicKey, old(wallets)[i].network, old(wallets)[i].funded, None)])
        && (snapshot.Some? ==> wallets[i].rotationHistory == old(wallets)[i].rotationHistory + [RotationRecord(
              world.now, old(wallets)[i].publicKey, old(wallets)[i].network, old(wallets)[i].funded,
              old(wallets)[i].secretKey)])
    {
      if !settings.IsName(name) {
        return Failed(InvalidName);
      }
      var cfg := wallets;
      var index := Position(cfg, name);
      if index == |cfg| {
        return Failed(NotFound);
      }
      var original := cfg[index];
      var network := if networkOverride.Some? then networkOverride.value else original.network;
      if snapshot == Some(false) {
        return Failed(SnapshotFailed);
      }
      var stored := Stored(generated.secretKey, encrypted);
      if stored.None? {
        return Failed(EncryptionFailed);
      }
      var record := RotationRecord(world.now, original.publicKey, original.network, original.funded,
                                   if snapshot.Some? then original.secretKey else None);
      cfg := cfg[index := original.(
        rotationHistory := original.rotationHistory + [record],
        publicKey := generated.publicKey,
        secretKey := stored,
        network := network,
        funded := false)];
      UpdatedAt(wallets, index, cfg[index]);
      if fund {
        if network != "mainnet" {
          if world.faucet(generated.publicKey) {
            var i := Position(cfg, name);
            cfg := cfg[i := cfg[i].(funded := true)];
          }
        }
      }
      r := Save(cfg, world);
    }

    /** Either every wallet of the backup is added, in its order, or nothing changes. */
    method ImportWallets(backup: Backup, world: World) returns (r: Outcome)
      modifies this
      ensures r == settings.ImportOutcome(old(wallets), backup, world.saved)
      ensures r.Failed? ==> wallets == old(wallets)
      ensures r.Done? ==>
        && Allowed(old(wallets), Append(Imported(backup.wallets)))
        && wallets == Apply(old(wallets), Append(Imported(backup.wallets)))
    {
      if backup.version != "2" && backup.version != "1" {
        return Failed(UnsupportedVersion);
      }
      if backup.wallets == [] {
        return Failed(EmptyBackup);
      }
      var distinct := NoDuplicate(backup.wallets);
      if !distinct {
        return Failed(DuplicateInBackup);
      }
      var cfg := wallets;
      var valid := CheckEntries(cfg, backup.wallets);
      if valid.Failed? {
        return valid;
      }
      settings.EntriesOutcomeOkIff(cfg, backup.wallets);
      ImportAllowed(cfg, backup.wallets);
      cfg := AppendImported(cfg, backup.wallets);
      r := Save(cfg, world);
    }

    method CheckEntries(cfg: seq<Wallet>, entries: seq<BackupEntry>) returns (r: Outcome)
      ensures r == settings.EntriesOutcome(cfg, entries)
    {
      for i := 0 to |entries|
        invariant settings.EntriesOutcome(cfg, entries[..i]) == Done
      {
        assert entries[..i + 1][..i] == entries[..i];
        r := settings.EntryOutcome(cfg, entries[i]);
        if r.Failed? {
          FirstProblemStays(cfg, entries, i + 1);
          return;
        }
      }
      assert entries[..|entries|] == entries;
      r := Done;
    }

    lemma FirstProblemStays(cfg: seq<Wallet>, entries: seq<BackupEntry>, i: nat)
      requires i <= |entries| && settings.EntriesOutcome(cfg, entries[..i]).Failed?
      ensures settings.EntriesOutcome(cfg, entries) == settings.EntriesOutcome(cfg, entries[..i])
      decreases |entries|
    {
      if i == |entries| {
        assert entries[..i] == entries;
      } else {
        var before := entries[..|entries| - 1];
        assert before[..i] == entries[..i];
        FirstProblemStays(cfg, before, i);
      }
    }

    /** An identity found by name, whatever the case, is overwritten; otherwise it is added. */
    method UpsertIdentity(name: string, publicKey: string, network: Option<string>, createdAt: Option<string>,
                          includeSecrets: bool, secret: Option<Option<string>>, world: World)
      returns (r: Outcome)
      modifies this
      ensures r == Check(includeSecrets ==> secret.Some?, KeyFailed, Check(world.saved, SaveFailed, Done))
      ensures r.Failed? ==> wallets == old(wallets)
      ensures r.Done? ==>
        var was, i, chosen := old(wallets), PositionIgnoringCase(old(wallets), name), settings.Chosen(network);
        var added := if createdAt.Some? then createdAt.value else world.now;
        var e := if i < |was| then Adopt(was[i].name, publicKey, chosen, if includeSecrets then secret else None)
                 else Append([Wallet(name, publicKey, if includeSecrets then secret.value else None, chosen, added,
                                     false, [])]);
        Allowed(was, e) && wallets == Apply(was, e)
    {
      var cfg := wallets;
      if includeSecrets && secret.None? {
        return Failed(KeyFailed);
      }
      var secretKey := if includeSecrets then secret.value else None;
      var chosen := settings.Chosen(network);
      var i := PositionIgnoringCase(cfg, name);
      if i < |cfg| {
        FirstOfItsName(cfg, i, name);
        cfg := cfg[i := cfg[i].(publicKey := publicKey, network := chosen)];
        if includeSecrets {
          cfg := cfg[i := cfg[i].(secretKey := secretKey)];
        }
      } else {
        var added := if createdAt.Some? then createdAt.value else world.now;
        cfg := cfg + [Wallet(name, publicKey, secretKey, chosen, added, false, [])];
      }
      r := Save(cfg, world);
    }
  }

  method AppendImported(cfg: seq<Wallet>, entries: seq<BackupEntry>) returns (list: seq<Wallet>)
    ensures list == cfg + Imported(entries)
  {
    list := cfg;
    for i := 0 to |entries|
      invariant list == cfg + Imported(entries[..i])
    {
      list := list + [ImportedWallet(entries[i])];
      assert Imported(entries[..i + 1]) == Imported(entries[..i]) + [ImportedWallet(entries[i])];
    }
    assert entries[..|entries|] == entries;
  }

  lemma ImportAllowed(wallets: seq<Wallet>, entries: seq<BackupEntry>)
    requires EntryNamesDistinct(entries)
    requires forall i | 0 <= i < |entries| :: !HasName(wallets, entries[i].name)
    ensures Allowed(wallets, Append(Imported(entries)))
  {
    hide HasName;
  }

  lemma AppendedAt(wallets: seq<Wallet>, w: Wallet)
    requires !HasName(wallets, w.name)
    ensures Position(wallets + [w], w.name) == |wallets|
    ensures w.rotationHistory == [] ==> Allowed(wallets, Append([w]))
  {
    var list := wallets + [w];
    assert list[|wallets|] == w;
    forall i | 0 <= i < |wallets| ensures list[i].name != w.name {
      NameAt(wallets, i);
    }
    var p := Position(list, w.name);
    assert p <= |wallets|;
  }

  lemma UpdatedAt(wallets: seq<Wallet>, i: nat, w: Wallet)
    requires i < |wallets| && i == Position(wallets, w.name)
    ensures Position(wallets[i := w], w.name) == i
  {
    var list := wallets[i := w];
    var p := Position(list, w.name);
    assert list[i].name == w.name;
    assert forall j | 0 <= j < i :: list[j] == wallets[j];
  }

  /** The first wallet whose name is the same but for the case of ASCII letters. */
  function PositionIgnoringCase(wallets: seq<Wallet>, name: string): (i: nat)
    ensures i <= |wallets|
    ensures i < |wallets| ==> AsciiLower(wallets[i].name) == AsciiLower(name)
    ensures forall j :: 0 <= j < i ==> AsciiLower(wallets[j].name) != AsciiLower(name)
  {
    if wallets == [] || AsciiLower(wallets[0].name) == AsciiLower(name) then 0
    else 1 + PositionIgnoringCase(wallets[1..], name)
  }

  lemma FirstOfItsName(wallets: seq<Wallet>, i: nat, name: string)
    requires i < |wallets| && AsciiLower(wallets[i].name) == AsciiLower(name)
    requires forall j | 0 <= j < i :: AsciiLower(wallets[j].name) != AsciiLower(name)
    ensures Position(wallets, wallets[i].name) == i
  {
    hide AsciiLower;
    var p := Position(wallets, wallets[i].name);
    assert p <= i;
  }

  /** `seen.insert` for every name of a backup. */
  method NoDuplicate(entries: seq<BackupEntry>) returns (distinct: bool)
    ensures distinct <==> EntryNamesDistinct(entries)
  {
    var seen: set<string> := {};
    for i := 0 to |entries|
      invariant forall n :: n in seen <==> exists j :: 0 <= j < i && entries[j].name == n
      invariant EntryNamesDistinct(entries[..i])
    {
      if entries[i].name in seen {
        return false;
      }
      seen := seen + {entries[i].name};
    }
    assert entries[..|entries|] == entries;
    distinct := true;
  }

  // ---------------------------------------------------------------- export and import

  function ExportedEntry(w: Wallet): BackupEntry {
    BackupEntry(w.name, w.publicKey, w.secretKey, w.network, w.createdAt, w.funded)
  }

  /** The backup of all wallets. */
  function Exported(wallets: seq<Wallet>): Backup {
    Backup("2", seq(|wallets|, i requires 0 <= i < |wallets| => ExportedEntry(wallets[i])))
  }

  /** A backup of everything, imported where no name is taken, brings back every wallet but not its
      rotation history; it is accepted exactly when every wallet would pass the import's own checks. */
  lemma ImportOfExport(s: Settings, wallets: seq<Wallet>)
    requires NamesDistinct(wallets)
    ensures s.ImportOutcome([], Exported(wallets), true).Done? <==>
      wallets != [] && forall i | 0 <= i < |wallets| :: s.IsEntry(ExportedEntry(wallets[i]))
    ensures var back := Imported(Exported(wallets).wallets);
      |back| == |wallets| && forall i | 0 <= i < |wallets| :: back[i] == wallets[i].(rotationHistory := [])
  {
    var backup := Exported(wallets);
    assert |backup.wallets| == |wallets|;
    s.ImportSucceedsIff([], backup, true);
    assert forall i | 0 <= i < |wallets| :: backup.wallets[i] == ExportedEntry(wallets[i]);
  }

  /** Every entry of a backup becomes a wallet that says the same, without a history; and back. */
  lemma BackupRules(entries: seq<BackupEntry>, wallets: seq<Wallet>, i: nat)
    ensures |Imported(entries)| == |entries| && |Exported(wallets).wallets| == |wallets|
    ensures i < |entries| ==>
      var e, w := entries[i], Imported(entries)[i];
      && w.name == e.name && w.publicKey == e.publicKey && w.secretKey == e.secretKey && w.network == e.network
      && w.createdAt == e.createdAt && w.funded == e.funded && w.rotationHistory == []
    ensures i < |wallets| ==>
      var e, w := Exported(wallets).wallets[i], wallets[i];
      && w.name == e.name && w.publicKey == e.publicKey && w.secretKey == e.secretKey && w.network == e.network
      && w.createdAt == e.createdAt && w.funded == e.funded
    ensures Exported(wallets).version == "2"
  {
  }

  /** A character of the Stellar key alphabet: a capital letter or a digit from 2 to 7. */
  predicate InAlphabet(c: char) {
    65 <= c as int <= 90 || 50 <= c as int <= 55
  }

  /** What counts as a key, a secret and a name of a wallet or a network. */
  lemma TextRules(s: Settings, prefix: char, text: string, encrypted: Option<string>)
    ensures IsKey(prefix, text) <==>
      |text| == 56 && text[..1] == [prefix] && forall c | c in text :: InAlphabet(c)
    ensures ':' in text ==> (s.IsSecret(text) <==> s.isBundle(text))
    ensures ':' !in text ==> (s.IsSecret(text) <==> IsKey('S', text))
    ensures s.IsName(text) <==> text != [] && forall c | c in text :: s.isAlphanumeric(c) || c == '-' || c == '_'
    ensures s.IsNetwork(text) <==>
      text in s.networks.Keys || text == "testnet" || text == "mainnet" || text == "docker-testnet"
    ensures s.FaucetOf(text) <==> exists n :: (text, n) in s.networks.Items && n.hasFaucet
    ensures s.Chosen(None) == s.network && s.Chosen(Some(text)) == text
    ensures Stored(text, None) == Some(text) && Stored(text, Some(encrypted)) == encrypted
  {
    assert forall i | 0 <= i < |text| :: text[i] in text;
    if text in s.networks { assert (text, s.networks[text]) in s.networks.Items; }
  }
}
