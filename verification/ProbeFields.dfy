/** Which fields of which replies the evidence of a probe comes from, by their names on the wire. */
module ProbeFields {
  import Endpoint
  import opened Domain
  import opened Json
  import opened Prober
  import opened Strings
  import opened Transport
  import opened Wrappers

  ghost predicate Holds(reply: Option<Value>, names: seq<string>, n: nat) {
    reply.Some? && exists k :: FirstNumber(reply.value, names, k, n)
  }

  ghost predicate HoldsNoNumber(reply: Option<Value>, names: seq<string>) {
    forall n: nat :: !Holds(reply, names, n)
  }

  ghost predicate HoldsText(reply: Option<Value>, names: seq<string>, s: string) {
    reply.Some? && exists k :: FirstString(reply.value, names, k, s)
  }

  lemma NumberOfIff(reply: Option<Value>, names: seq<string>)
    ensures forall n: nat :: NumberOf(reply, names) == Some(n) <==> Holds(reply, names, n)
    ensures NumberOf(reply, names) == None <==> HoldsNoNumber(reply, names)
  {
    hide U64Field, FirstNumber;
    forall n: nat ensures NumberOf(reply, names) == Some(n) <==> Holds(reply, names, n) {
      if reply.Some? { U64FieldIff(reply.value, names, n); }
    }
  }

  lemma StringOfIff(reply: Option<Value>, names: seq<string>)
    ensures forall s :: StringOf(reply, names) == Some(s) <==> HoldsText(reply, names, s)
  {
    hide StringField, FirstString;
    forall s ensures StringOf(reply, names) == Some(s) <==> HoldsText(reply, names, s) {
      if reply.Some? { StringFieldIff(reply.value, names, s); }
    }
  }

  /** The newest ledger is the health reply's, or else the one of getLatestLedger; the oldest is the
      health reply's. */
  lemma LedgerFields(digest: string -> string, network: Option<Value>, latest: Option<Value>,
                     health: Option<Value>, version: Option<Value>, n: nat)
    ensures var f := FieldsFrom(digest, network, latest, health, version);
      var newest := ["latestLedger", "latest_ledger", "latestLedgerSequence"];
      && (f.latestLedger == Some(n) <==>
            || Holds(health, newest, n)
            || (HoldsNoNumber(health, newest)
                && Holds(latest, ["sequence", "ledger", "latestLedger", "latest_ledger"], n)))
      && (f.oldestLedger == Some(n) <==> Holds(health, ["oldestLedger", "oldest_ledger", "oldestLedgerSequence"], n))
  {
    NumberOfIff(health, LATEST_FIELDS);
    NumberOfIff(latest, SEQUENCE_FIELDS);
    NumberOfIff(health, OLDEST_FIELDS);
    hide Holds, HoldsNoNumber, NumberOf, ProtocolIn, RetentionIn, IdentityIn, LimitsIn, StringOf;
  }

  /** The protocol is that of getLatestLedger, or else of getNetwork; a number that is no u32 is none. */
  lemma ProtocolFields(digest: string -> string, network: Option<Value>, latest: Option<Value>,
                       health: Option<Value>, version: Option<Value>, n: nat)
    ensures var names := ["protocolVersion", "protocol_version"];
      FieldsFrom(digest, network, latest, health, version).protocolVersion == Some(n) <==>
        && n <= 0xFFFF_FFFF
        && (Holds(latest, names, n)
            || ((forall m: nat | m <= 0xFFFF_FFFF :: !Holds(latest, names, m)) && Holds(network, names, n)))
  {
    NumberOfIff(latest, PROTOCOL_FIELDS);
    NumberOfIff(network, PROTOCOL_FIELDS);
    hide Holds, HoldsNoNumber, NumberOf, RetentionIn, IdentityIn, LimitsIn, StringOf;
    assert ProtocolIn(latest).Some? ==> Holds(latest, PROTOCOL_FIELDS, ProtocolIn(latest).value);
  }

  /** The window is the one reported, or else, when there is a health reply at all, the number of ledgers
      between oldest and newest. */
  lemma RetentionFields(digest: string -> string, network: Option<Value>, latest: Option<Value>,
                        health: Option<Value>, version: Option<Value>, n: nat)
    ensures var f := FieldsFrom(digest, network, latest, health, version);
      var names := ["ledgerRetentionWindow", "retentionWindow", "retention_window"];
      f.retentionWindow == Some(n) <==>
        || Holds(health, names, n)
        || (health.Some? && HoldsNoNumber(health, names) && RetentionFrom(f.latestLedger, f.oldestLedger) == Some(n))
  {
    NumberOfIff(health, RETENTION_FIELDS);
    hide Holds, HoldsNoNumber, NumberOf, ProtocolIn, IdentityIn, LimitsIn, StringOf, RetentionFrom;
    assert health.None? ==> !Holds(health, RETENTION_FIELDS, n) by { NotHeld(RETENTION_FIELDS, n); }
  }

  lemma NotHeld(names: seq<string>, n: nat)
    ensures !Holds(None, names, n)
  {
  }

  /** The network is identified by the digest of its passphrase; the version may be a commit. */
  lemma TextFields(digest: string -> string, network: Option<Value>, latest: Option<Value>,
                   health: Option<Value>, version: Option<Value>, s: string)
    ensures var f := FieldsFrom(digest, network, latest, health, version);
      && (f.networkIdentity == Some(s) <==>
            exists p :: HoldsText(network, ["passphrase", "networkPassphrase"], p) && s == digest(p))
      && (f.rpcVersion == Some(s) <==>
            HoldsText(version, ["version", "versionString", "commitHash", "commit_hash"], s))
  {
    StringOfIff(network, PASSPHRASE_FIELDS);
    StringOfIff(version, VERSION_FIELDS);
    hide HoldsText, NumberOf, StringOf, ProtocolIn, RetentionIn, LimitsIn;
    var passphrase := StringOf(network, PASSPHRASE_FIELDS);
    if passphrase.Some? { assert HoldsText(network, PASSPHRASE_FIELDS, passphrase.value); }
  }

  /** Limits come from the health and the version reply; the version reply decides where both have one. */
  lemma LimitFields(digest: string -> string, network: Option<Value>, latest: Option<Value>,
                    health: Option<Value>, version: Option<Value>, key: string)
    ensures var limits := FieldsFrom(digest, network, latest, health, version).limits;
      var fromHealth, fromVersion := LimitsIn(health), LimitsIn(version);
      && (key in limits <==> key in fromHealth || key in fromVersion)
      && (key in fromVersion ==> limits[key] == fromVersion[key])
      && (key in fromHealth && key !in fromVersion ==> limits[key] == fromHealth[key])
    ensures health.None? ==> LimitsIn(health) == map[]
    ensures forall fields :: LimitsIn(Some(Object(fields))) == LimitsOf(fields)
  {
    hide LimitsOf, NumberOf, StringOf, ProtocolIn, RetentionIn, IdentityIn;
  }

  /** What is read from the Horizon root, under its own names. */
  lemma HorizonFields(x: Exchange, digest: string -> string, n: nat, s: string)
    requires x.request.Get? && x.response.Success?
    ensures HorizonFrom(x, digest).Success? <==> x.response.value.Object?
    ensures HorizonFrom(x, digest).Success? ==>
      var root, h := Some(x.response.value), HorizonFrom(x, digest).value;
      && h.displayEndpoint == Endpoint.DisplayEndpoint(x.request.endpoint)
      && (h.latestLedger == Some(n) <==>
            Holds(root, ["history_latest_ledger", "historyLatestLedger", "latest_ledger"], n))
      && (h.protocolVersion == Some(n) <==>
            n <= 0xFFFF_FFFF && Holds(root, ["current_protocol_version", "protocolVersion", "protocol_version"], n))
      && (h.networkIdentity == Some(s) <==>
            exists p :: HoldsText(root, ["network_passphrase", "networkPassphrase", "passphrase"], p) && s == digest(p))
      && (h.coreVersion == Some(s) <==> HoldsText(root, ["core_version", "coreVersion"], s))
  {
    var root := Some(x.response.value);
    var passphraseNames := ["network_passphrase", "networkPassphrase", "passphrase"];
    NumberOfIff(root, ["history_latest_ledger", "historyLatestLedger", "latest_ledger"]);
    NumberOfIff(root, ["current_protocol_version", "protocolVersion", "protocol_version"]);
    StringOfIff(root, passphraseNames);
    StringOfIff(root, ["core_version", "coreVersion"]);
    hide Holds, HoldsText, HoldsNoNumber, U64Field, StringField, Endpoint.DisplayEndpoint;
    var passphrase := StringOf(root, passphraseNames);
    if passphrase.Some? { assert HoldsText(root, passphraseNames, passphrase.value); }
  }
}
