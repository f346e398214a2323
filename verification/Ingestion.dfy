/** Statement evidence: accounts and statement records under three unique
    indexes, and the command that accepts a statement once and replays it. */
module Ingestion {
  import opened Sums

  /** A statement after parsing. `payload` is the normalised payload, standing for
      its digest. */
  datatype Statement = Statement(
    identity: string, currency: string, accountHash: string, payload: string, entryCurrencies: seq<string>)

  /** The pinned message adapter, as a parser of artifacts. */
  type Adapter = string -> Option<Statement>

  datatype Account = Account(currency: string, identifierHash: string)

  /** A recorded statement. `artifact` is the source text, standing for its
      digest. */
  datatype Record = Record(id: nat, account: string, identity: string, artifact: string, payload: string, key: string)

  datatype State = State(accounts: map<string, Account>, records: seq<Record>)

  datatype Command =
    | Register(reference: string, account: Account)
    | Ingest(reference: string, key: string, artifact: string, claimed: Option<string>)

  datatype Refusal =
    | MissingKey | EmptyPayload | DigestMismatch | NotAStatement | UnknownAccount | OtherCurrency
    | OtherIdentifier | ForeignEntry | KeyReused | IdentityReused | ReferenceReused

  datatype Reply =
    | Refused(why: Refusal)
    | Registered(replayed: bool)
    | Accepted(record: Record, replayed: bool)

  // ------------------------------------------------------------------- steps

  /** The row a unique lookup finds. */
  function Find(records: seq<Record>, p: Record -> bool): (found: Option<Record>)
    ensures found.Some? ==> found.value in records && p(found.value)
    ensures found.None? ==> forall r :: r in records ==> !p(r)
  {
    if records == [] then None
    else
      var last := records[|records| - 1];
      if p(last) then Some(last) else Find(records[..|records| - 1], p)
  }

  function ByKey(key: string): Record -> bool {
    (r: Record) => r.key == key
  }

  function ByArtifact(artifact: string): Record -> bool {
    (r: Record) => r.artifact == artifact
  }

  function ByIdentity(account: string, identity: string): Record -> bool {
    (r: Record) => r.account == account && r.identity == identity
  }

  /** What is refused before any record is looked up. */
  function IngestRefusal(parse: Adapter, s: State, c: Command): Option<Refusal>
    requires c.Ingest?
  {
    if c.key == "" then Some(MissingKey)
    else if c.artifact == "" then Some(EmptyPayload)
    else if c.claimed.Some? && c.claimed.value != c.artifact then Some(DigestMismatch)
    else if parse(c.artifact).None? then Some(NotAStatement)
    else if c.reference !in s.accounts then Some(UnknownAccount)
    else
      var statement, account := parse(c.artifact).value, s.accounts[c.reference];
      if account.currency != statement.currency then Some(OtherCurrency)
      else if account.identifierHash != statement.accountHash then Some(OtherIdentifier)
      else if exists k :: 0 <= k < |statement.entryCurrencies| && statement.entryCurrencies[k] != statement.currency
      then Some(ForeignEntry)
      else None
  }

  /** The answer of the three lookups, first found first answered. */
  function Lookup(s: State, c: Command, statement: Statement): Option<Reply>
    requires c.Ingest?
  {
    var byKey := Find(s.records, ByKey(c.key));
    var byArtifact := Find(s.records, ByArtifact(c.artifact));
    var byIdentity := Find(s.records, ByIdentity(c.reference, statement.identity));
    if byKey.Some? then
      Some(if byKey.value.artifact != c.artifact || byKey.value.payload != statement.payload then Refused(KeyReused)
           else Accepted(byKey.value, true))
    else if byArtifact.Some? then Some(Accepted(byArtifact.value, true))
    else if byIdentity.Some? then
      Some(if byIdentity.value.payload != statement.payload then Refused(IdentityReused)
           else Accepted(byIdentity.value, true))
    else None
  }

  function NewRecord(s: State, c: Command, statement: Statement): Record
    requires c.Ingest?
  {
    Record(|s.records|, c.reference, statement.identity, c.artifact, statement.payload, c.key)
  }

  function IngestStep(parse: Adapter, s: State, c: Command): (State, Reply)
    requires c.Ingest?
  {
    if IngestRefusal(parse, s, c).Some? then (s, Refused(IngestRefusal(parse, s, c).value))
    else
      var statement := parse(c.artifact).value;
      var found := Lookup(s, c, statement);
      if found.Some? then (s, found.value)
      else
        var r := NewRecord(s, c, statement);
        (s.(records := s.records + [r]), Accepted(r, false))
  }

  function RegisterStep(s: State, c: Command): (State, Reply)
    requires c.Register?
  {
    if c.reference in s.accounts then
      (s, if s.accounts[c.reference] == c.account then Registered(true) else Refused(ReferenceReused))
    else (s.(accounts := s.accounts[c.reference := c.account]), Registered(false))
  }

  function Step(parse: Adapter, s: State, c: Command): (State, Reply) {
    if c.Register? then RegisterStep(s, c) else IngestStep(parse, s, c)
  }

  function Run(parse: Adapter, s: State, commands: seq<Command>): State {
    if commands == [] then s
    else Step(parse, Run(parse, s, commands[..|commands| - 1]), commands[|commands| - 1]).0
  }

  const EMPTY := State(map[], [])

  // -------------------------------------------------------------- invariants

  /** The three unique indexes, and ids handed out in order. */
  predicate IndexesUnique(records: seq<Record>) {
    && (forall i :: 0 <= i < |records| ==> records[i].id == i)
    && forall i, j :: 0 <= i < j < |records| ==>
      && records[i].key != records[j].key
      && records[i].artifact != records[j].artifact
      && !(records[i].account == records[j].account && records[i].identity == records[j].identity)
  }

  /** A record holds what its artifact parses to, under an account it names. */
  predicate Faithful(parse: Adapter, accounts: map<string, Account>, r: Record) {
    && parse(r.artifact).Some? && r.account in accounts
    && r.identity == parse(r.artifact).value.identity
    && r.payload == parse(r.artifact).value.payload
    && accounts[r.account] == Account(parse(r.artifact).value.currency, parse(r.artifact).value.accountHash)
  }

  predicate AllFaithful(parse: Adapter, s: State) {
    forall r :: r in s.records ==> Faithful(parse, s.accounts, r)
  }

  predicate Inv(parse: Adapter, s: State) {
    IndexesUnique(s.records) && AllFaithful(parse, s)
  }

  lemma NotFoundIsAbsent(records: seq<Record>, p: Record -> bool)
    requires Find(records, p).None?
    ensures forall i :: 0 <= i < |records| ==> !p(records[i])
  {
    forall i | 0 <= i < |records| ensures !p(records[i]) {
      assert records[i] in records;
    }
  }

  lemma StepKeepsFaithful(parse: Adapter, s: State, c: Command)
    requires AllFaithful(parse, s)
    ensures AllFaithful(parse, Step(parse, s, c).0)
  {
    var t := Step(parse, s, c).0;
    forall r | r in t.records ensures Faithful(parse, t.accounts, r) {
      assert r in s.records ==> Faithful(parse, s.accounts, r);
    }
  }

  lemma InsertKeepsIndexes(parse: Adapter, s: State, c: Command)
    requires c.Ingest? && IndexesUnique(s.records) && IngestRefusal(parse, s, c).None?
    requires Lookup(s, c, parse(c.artifact).value).None?
    ensures IndexesUnique(s.records + [NewRecord(s, c, parse(c.artifact).value)])
  {
    var statement := parse(c.artifact).value;
    NotFoundIsAbsent(s.records, ByKey(c.key));
    NotFoundIsAbsent(s.records, ByArtifact(c.artifact));
    NotFoundIsAbsent(s.records, ByIdentity(c.reference, statement.identity));
    forall i | 0 <= i < |s.records|
      ensures s.records[i].key != c.key && s.records[i].artifact != c.artifact
      ensures !(s.records[i].account == c.reference && s.records[i].identity == statement.identity)
    {
      assert !ByKey(c.key)(s.records[i]) && !ByArtifact(c.artifact)(s.records[i]);
      assert !ByIdentity(c.reference, statement.identity)(s.records[i]);
    }
  }

  lemma StepKeepsInv(parse: Adapter, s: State, c: Command)
    requires Inv(parse, s)
    ensures Inv(parse, Step(parse, s, c).0)
  {
    StepKeepsFaithful(parse, s, c);
    if c.Ingest? && IngestRefusal(parse, s, c).None? && Lookup(s, c, parse(c.artifact).value).None? {
      InsertKeepsIndexes(parse, s, c);
    }
  }

  /** In every run no insert breaks a unique index, and every record stays what
      its artifact parses to. */
  lemma {:induction false} RunKeepsInv(parse: Adapter, s: State, commands: seq<Command>)
    requires Inv(parse, s)
    ensures Inv(parse, Run(parse, s, commands))
  {
    if commands != [] {
      RunKeepsInv(parse, s, commands[..|commands| - 1]);
      StepKeepsInv(parse, Run(parse, s, commands[..|commands| - 1]), commands[|commands| - 1]);
    }
  }

  // ------------------------------------------------------------ main results

  predicate Grew(s: State, t: State) {
    && s.records <= t.records
    && (forall a :: a in s.accounts ==> a in t.accounts && t.accounts[a] == s.accounts[a])
  }

  /** Records and accounts are only ever added, and only by a reply that is no
      refusal and no replay. */
  lemma OnlyFirstAcceptanceChanges(parse: Adapter, s: State, c: Command)
    ensures Grew(s, Step(parse, s, c).0)
    ensures var (t, reply) := Step(parse, s, c);
            t != s <==> (reply.Registered? || reply.Accepted?) && !reply.replayed
  {
    var (t, reply) := Step(parse, s, c);
    if c.Ingest? && IngestRefusal(parse, s, c).None? && Lookup(s, c, parse(c.artifact).value).None? {
      assert |t.records| == |s.records| + 1;
    } else if c.Register? && c.reference !in s.accounts {
      assert c.reference in t.accounts;
    }
  }

  lemma {:induction false} RunOnlyGrows(parse: Adapter, s: State, commands: seq<Command>)
    ensures Grew(s, Run(parse, s, commands))
  {
    if commands != [] {
      var before := Run(parse, s, commands[..|commands| - 1]);
      RunOnlyGrows(parse, s, commands[..|commands| - 1]);
      OnlyFirstAcceptanceChanges(parse, before, commands[|commands| - 1]);
    }
  }

  /** Whichever lookup answers, the record returned carries the submitted
      statement: its payload and identity, under an account with the submitted
      identifier and currency. */
  lemma AcceptedRecordIsTheSubmittedOne(parse: Adapter, s: State, c: Command)
    requires c.Ingest? && AllFaithful(parse, s) && IngestStep(parse, s, c).1.Accepted?
    ensures var (t, reply) := IngestStep(parse, s, c);
            var r, statement := reply.record, parse(c.artifact);
            && statement.Some? && r in t.records
            && r.payload == statement.value.payload && r.identity == statement.value.identity
            && r.account in s.accounts && c.reference in s.accounts
            && s.accounts[r.account] == s.accounts[c.reference]
            && (r.artifact == c.artifact || r.account == c.reference)
  {
    var (t, reply) := IngestStep(parse, s, c);
    StepKeepsFaithful(parse, s, c);
    assert reply.record in t.records;
    assert Faithful(parse, t.accounts, reply.record);
  }

  // ------------------------------------------------------------------ replays

  lemma FindTheOnly(records: seq<Record>, p: Record -> bool, i: nat)
    requires i < |records| && p(records[i])
    requires forall j :: 0 <= j < |records| && j != i ==> !p(records[j])
    ensures Find(records, p) == Some(records[i])
  {
    var found := Find(records, p);
    assert records[i] in records;
    var j :| 0 <= j < |records| && records[j] == found.value;
  }

  lemma KeyFinds(records: seq<Record>, i: nat)
    requires i < |records| && IndexesUnique(records)
    ensures Find(records, ByKey(records[i].key)) == Some(records[i])
    ensures Find(records, ByArtifact(records[i].artifact)) == Some(records[i])
    ensures Find(records, ByIdentity(records[i].account, records[i].identity)) == Some(records[i])
  {
    forall j | 0 <= j < |records| && j != i
      ensures !ByKey(records[i].key)(records[j]) && !ByArtifact(records[i].artifact)(records[j])
      ensures !ByIdentity(records[i].account, records[i].identity)(records[j])
    {
      assert i < j || j < i;
    }
    FindTheOnly(records, ByKey(records[i].key), i);
    FindTheOnly(records, ByArtifact(records[i].artifact), i);
    FindTheOnly(records, ByIdentity(records[i].account, records[i].identity), i);
  }

  /** No record of another statement has taken the command's key, and no other
      record its artifact. */
  predicate StillItsOwn(t: State, c: Command, r: Record)
    requires c.Ingest?
  {
    forall i :: 0 <= i < |t.records| ==>
      && (t.records[i].key == c.key ==> t.records[i].artifact == c.artifact)
      && (t.records[i].artifact == c.artifact ==> t.records[i] == r)
  }

  lemma LaterAnswer(parse: Adapter, t: State, c: Command, i: nat)
    requires c.Ingest? && Inv(parse, t) && i < |t.records| && IngestRefusal(parse, t, c).None?
    requires var statement := parse(c.artifact).value;
             && t.records[i].payload == statement.payload && t.records[i].identity == statement.identity
             && (t.records[i].artifact == c.artifact || t.records[i].account == c.reference)
    ensures IngestStep(parse, t, c) == (t, Accepted(t.records[i], true)) <==> StillItsOwn(t, c, t.records[i])
  {
    var r, statement := t.records[i], parse(c.artifact).value;
    var byKey, byArtifact := Find(t.records, ByKey(c.key)), Find(t.records, ByArtifact(c.artifact));
    KeyFinds(t.records, i);
    if byKey.Some? || byArtifact.Some? {
      var k := if byKey.Some? then byKey.value else byArtifact.value;
      var m :| 0 <= m < |t.records| && t.records[m] == k;
      KeyFinds(t.records, m);
      assert Faithful(parse, t.accounts, k);
      if byKey.None? {
        NotFoundIsAbsent(t.records, ByKey(c.key));
        assert forall j :: 0 <= j < |t.records| ==> !ByKey(c.key)(t.records[j]);
      }
    } else {
      NotFoundIsAbsent(t.records, ByKey(c.key));
      NotFoundIsAbsent(t.records, ByArtifact(c.artifact));
      assert forall j :: 0 <= j < |t.records| ==> !ByKey(c.key)(t.records[j]) && !ByArtifact(c.artifact)(t.records[j]);
    }
  }

  /** A command once accepted gets the same record again at a later time exactly
      when its key and its artifact are still its own. */
  lemma ReplayLastsExactlyWhen(parse: Adapter, s: State, c: Command, later: seq<Command>)
    requires c.Ingest? && Inv(parse, s) && IngestStep(parse, s, c).1.Accepted?
    ensures var (now, reply) := IngestStep(parse, s, c);
            var t := Run(parse, now, later);
            IngestStep(parse, t, c) == (t, Accepted(reply.record, true)) <==> StillItsOwn(t, c, reply.record)
  {
    var (now, reply) := IngestStep(parse, s, c);
    var t := Run(parse, now, later);
    AcceptedRecordIsTheSubmittedOne(parse, s, c);
    StepKeepsInv(parse, s, c);
    RunKeepsInv(parse, now, later);
    RunOnlyGrows(parse, now, later);
    OnlyFirstAcceptanceChanges(parse, s, c);
    var i :| 0 <= i < |now.records| && now.records[i] == reply.record;
    assert t.records[i] == reply.record;
    LaterAnswer(parse, t, c, i);
  }

  /** The command that recorded a statement is replayed for ever after. */
  lemma FirstAcceptanceReplaysForever(parse: Adapter, s: State, c: Command, later: seq<Command>)
    requires c.Ingest? && Inv(parse, s)
    requires IngestStep(parse, s, c).1.Accepted? && !IngestStep(parse, s, c).1.replayed
    ensures var (now, reply) := IngestStep(parse, s, c);
            var t := Run(parse, now, later);
            IngestStep(parse, t, c) == (t, Accepted(reply.record, true))
  {
    var (now, reply) := IngestStep(parse, s, c);
    var t := Run(parse, now, later);
    StepKeepsInv(parse, s, c);
    RunKeepsInv(parse, now, later);
    RunOnlyGrows(parse, now, later);
    var i := |s.records|;
    assert now.records[i] == reply.record && t.records[i] == now.records[i];
    forall j | 0 <= j < |t.records| && j != i
      ensures t.records[j].key != c.key && t.records[j].artifact != c.artifact
    {
      assert i < j || j < i;
    }
    ReplayLastsExactlyWhen(parse, s, c, later);
  }

  /** No record of the command's artifact is under another reference. */
  predicate ArtifactIsOwn(s: State, c: Command)
    requires c.Ingest?
  {
    forall r :: r in s.records && r.artifact == c.artifact ==> r.account == c.reference
  }

  lemma AnswerOfTheArtifact(parse: Adapter, s: State, c: Command, r: Record)
    requires c.Ingest? && Inv(parse, s) && IngestStep(parse, s, c).1.Accepted?
    requires r in s.records && r.artifact == c.artifact
    ensures IngestStep(parse, s, c).1.record == r
  {
    var i :| 0 <= i < |s.records| && s.records[i] == r;
    KeyFinds(s.records, i);
  }

  /** An accepted command is answered with a record under the reference it names
      exactly when its artifact has not been recorded under another one. */
  lemma OwnReferenceExactlyWhen(parse: Adapter, s: State, c: Command)
    requires c.Ingest? && Inv(parse, s) && IngestStep(parse, s, c).1.Accepted?
    ensures IngestStep(parse, s, c).1.record.account == c.reference <==> ArtifactIsOwn(s, c)
  {
    AcceptedRecordIsTheSubmittedOne(parse, s, c);
    forall r | r in s.records && r.artifact == c.artifact ensures IngestStep(parse, s, c).1.record == r {
      AnswerOfTheArtifact(parse, s, c, r);
    }
    var record := IngestStep(parse, s, c).1.record;
    assert record.artifact == c.artifact && record.account != c.reference ==> record in s.records;
  }

  // -------------------------------------------------- what accepting promises

  /** The command names a key and an artifact, and its digest when it claims one; the
      artifact is a statement, all in one currency, of the account registered under the
      reference. */
  predicate Admissible(parse: Adapter, s: State, c: Command)
    requires c.Ingest?
  {
    && c.key != "" && c.artifact != "" && (c.claimed.Some? ==> c.claimed.value == c.artifact)
    && parse(c.artifact).Some? && c.reference in s.accounts
    && var statement := parse(c.artifact).value;
       && s.accounts[c.reference] == Account(statement.currency, statement.accountHash)
       && forall currency :: currency in statement.entryCurrencies ==> currency == statement.currency
  }

  /** No record that the command meets holds anything else: one under its key has its
      artifact, and one with its identity has its payload unless key or artifact answer. */
  predicate AgreesWithRecords(parse: Adapter, s: State, c: Command)
    requires c.Ingest? && parse(c.artifact).Some?
  {
    var statement := parse(c.artifact).value;
    && (forall r :: r in s.records && r.key == c.key ==> r.artifact == c.artifact)
    && ((forall r :: r in s.records ==> r.key != c.key && r.artifact != c.artifact) ==>
          forall r :: r in s.records && r.account == c.reference && r.identity == statement.identity ==>
            r.payload == statement.payload)
  }

  /** What a refusal says of the command. */
  predicate Says(parse: Adapter, s: State, c: Command, why: Refusal)
    requires c.Ingest?
  {
    var statement := parse(c.artifact);
    match why
    case MissingKey => c.key == ""
    case EmptyPayload => c.artifact == ""
    case DigestMismatch => c.claimed.Some? && c.claimed.value != c.artifact
    case NotAStatement => statement.None?
    case UnknownAccount => c.reference !in s.accounts
    case OtherCurrency =>
      statement.Some? && c.reference in s.accounts && s.accounts[c.reference].currency != statement.value.currency
    case OtherIdentifier =>
      && statement.Some? && c.reference in s.accounts
      && s.accounts[c.reference].identifierHash != statement.value.accountHash
    case ForeignEntry =>
      statement.Some? && exists k :: k in statement.value.entryCurrencies && k != statement.value.currency
    case KeyReused => exists r :: r in s.records && r.key == c.key && r.artifact != c.artifact
    case IdentityReused =>
      statement.Some? &&
      exists r :: r in s.records && r.account == c.reference && r.identity == statement.value.identity
               && r.payload != statement.value.payload
    case ReferenceReused => false
  }

  lemma AdmissibleExactlyWhen(parse: Adapter, s: State, c: Command)
    requires c.Ingest?
    ensures IngestRefusal(parse, s, c).None? <==> Admissible(parse, s, c)
    ensures IngestRefusal(parse, s, c).Some? ==> Says(parse, s, c, IngestRefusal(parse, s, c).value)
  {
    if parse(c.artifact).Some? {
      var currencies := parse(c.artifact).value.entryCurrencies;
      assert forall k :: 0 <= k < |currencies| ==> currencies[k] in currencies;
    }
  }

  lemma LookupExactlyWhen(parse: Adapter, s: State, c: Command, statement: Statement)
    requires c.Ingest? && Inv(parse, s) && parse(c.artifact) == Some(statement)
    ensures var found := Lookup(s, c, statement);
            && (found.Some? && found.value.Refused? <==> !AgreesWithRecords(parse, s, c))
            && (found.Some? && found.value.Refused? ==> Says(parse, s, c, found.value.why))
  {
    var byKey, byArtifact := Find(s.records, ByKey(c.key)), Find(s.records, ByArtifact(c.artifact));
    var byIdentity := Find(s.records, ByIdentity(c.reference, statement.identity));
    if byKey.Some? {
      var i :| 0 <= i < |s.records| && s.records[i] == byKey.value;
      KeyFinds(s.records, i);
      assert Faithful(parse, s.accounts, byKey.value);
    } else if byArtifact.None? && byIdentity.Some? {
      var i :| 0 <= i < |s.records| && s.records[i] == byIdentity.value;
      KeyFinds(s.records, i);
    }
  }

  /** A command is accepted exactly when it is admissible and agrees with the records, and a
      refusal says what is so. */
  lemma AcceptedExactlyWhen(parse: Adapter, s: State, c: Command)
    requires c.Ingest? && Inv(parse, s)
    ensures var reply := IngestStep(parse, s, c).1;
            && (reply.Accepted? <==> Admissible(parse, s, c) && AgreesWithRecords(parse, s, c))
            && (reply.Refused? ==> Says(parse, s, c, reply.why))
  {
    AdmissibleExactlyWhen(parse, s, c);
    if IngestRefusal(parse, s, c).None? {
      LookupExactlyWhen(parse, s, c, parse(c.artifact).value);
    }
  }

  /** Nothing is refused beforehand and no record has the command's key, its
      artifact or its identity under the account. */
  predicate MayBeRecorded(parse: Adapter, s: State, c: Command)
    requires c.Ingest?
  {
    && Admissible(parse, s, c)
    && forall r :: r in s.records ==>
         && r.key != c.key && r.artifact != c.artifact
         && !(r.account == c.reference && r.identity == parse(c.artifact).value.identity)
  }

  /** The record holds the submitted statement under an account like the named one. */
  predicate Carries(parse: Adapter, s: State, c: Command, r: Record)
    requires c.Ingest?
  {
    && parse(c.artifact).Some? && r in s.records
    && r.payload == parse(c.artifact).value.payload && r.identity == parse(c.artifact).value.identity
    && r.account in s.accounts && c.reference in s.accounts && s.accounts[r.account] == s.accounts[c.reference]
  }

  /** A statement is recorded exactly when nothing stands against it, as the one new
      record under the command's own key; anything else writes nothing; a command is
      accepted exactly when it agrees with the records, and the record then carries the
      submitted statement; a refusal says what is so; the indexes stay unique. */
  predicate IngestsSoundly(parse: Adapter, s: State, c: Command, outcome: (State, Reply))
    requires c.Ingest?
  {
    var (t, reply) := outcome;
    && Inv(parse, t)
    && (reply.Accepted? && !reply.replayed <==> MayBeRecorded(parse, s, c))
    && (if MayBeRecorded(parse, s, c)
        then
          && t == s.(records := s.records + [reply.record])
          && reply.record.key == c.key && reply.record.artifact == c.artifact && reply.record.account == c.reference
        else t == s)
    && (reply.Accepted? <==> Admissible(parse, s, c) && AgreesWithRecords(parse, s, c))
    && (reply.Accepted? ==> Carries(parse, t, c, reply.record))
    && (reply.Refused? ==> Says(parse, s, c, reply.why))
    && !reply.Registered?
  }

  lemma RecordedExactlyWhen(parse: Adapter, s: State, c: Command)
    requires c.Ingest?
    ensures MayBeRecorded(parse, s, c) <==>
            IngestRefusal(parse, s, c).None? && Lookup(s, c, parse(c.artifact).value).None?
  {
    AdmissibleExactlyWhen(parse, s, c);
    if IngestRefusal(parse, s, c).None? {
      var statement := parse(c.artifact).value;
      forall r | r in s.records && Lookup(s, c, statement).None?
        ensures r.key != c.key && r.artifact != c.artifact
        ensures !(r.account == c.reference && r.identity == statement.identity)
      {
        assert !ByKey(c.key)(r) && !ByArtifact(c.artifact)(r) && !ByIdentity(c.reference, statement.identity)(r);
      }
    }
  }

  lemma IngestIsSound(parse: Adapter, s: State, c: Command)
    requires c.Ingest? && Inv(parse, s)
    ensures IngestsSoundly(parse, s, c, IngestStep(parse, s, c))
  {
    StepKeepsInv(parse, s, c);
    RecordedExactlyWhen(parse, s, c);
    AcceptedExactlyWhen(parse, s, c);
    if IngestStep(parse, s, c).1.Accepted? {
      AcceptedRecordIsTheSubmittedOne(parse, s, c);
    }
  }

  // ------------------------------------------------------------ concrete runs

  /** Two references "a" and "b" for one account, and a statement recorded under
      the first. */
  const SHARED := Account("KRW", "h")

  const SAME := Ingest("b", "l", "x", None)
  const ALIASES: seq<Command> := [Register("a", SHARED), Register("b", SHARED), Ingest("a", "k", "x", None)]

  function AnyStatement(): Adapter {
    (artifact: string) => Some(Statement("1", "KRW", "h", "p", []))
  }

  lemma RunOfThree(parse: Adapter, a: Command, b: Command, c: Command)
    ensures Run(parse, EMPTY, [a, b, c]) == Step(parse, Step(parse, Step(parse, EMPTY, a).0, b).0, c).0
  {
    assert [a, b, c][..2] == [a, b] && [a, b][..1] == [a] && [a][..0] == [];
    assert Run(parse, EMPTY, [a]) == Step(parse, EMPTY, a).0;
    assert Run(parse, EMPTY, [a, b]) == Step(parse, Step(parse, EMPTY, a).0, b).0;
  }

  lemma AliasesRegistered()
    ensures var s := Run(AnyStatement(), EMPTY, ALIASES);
            && s.accounts == map["a" := SHARED, "b" := SHARED]
            && s.records == [Record(0, "a", "1", "x", "p", "k")]
  {
    RunOfThree(AnyStatement(), ALIASES[0], ALIASES[1], ALIASES[2]);
    assert ALIASES == [ALIASES[0], ALIASES[1], ALIASES[2]];
    assert Step(AnyStatement(), EMPTY, ALIASES[0]).0 == State(map["a" := SHARED], []);
  }

  /** The artifact lookup answers a command for one reference with a record of
      another, when both are registered for one account. */
  lemma SharedAccountAnswersForAnother()
    ensures var (_, reply) := IngestStep(AnyStatement(), Run(AnyStatement(), EMPTY, ALIASES), SAME);
            reply.Accepted? && reply.record.account == "a" && SAME.reference == "b"
  {
    AliasesRegistered();
    var records := [Record(0, "a", "1", "x", "p", "k")];
    assert records[..0] == [];
    assert "k" != "l";
    assert Find(records, ByKey("l")) == None;
    assert Find(records, ByArtifact("x")) == Some(records[0]);
  }

  /** A statement recorded under one key, asked for again under another, which a
      second statement then takes. */
  const TWICE := Ingest("a", "l", "x", None)

  const TAKER := Ingest("a", "l", "y", None)

  function TwoStatements(): Adapter {
    (artifact: string) =>
      if artifact == "x" then Some(Statement("1", "KRW", "h", "p", [])) else Some(Statement("2", "KRW", "h", "q", []))
  }

  const RECORDED := State(map["a" := SHARED], [Record(0, "a", "1", "x", "p", "k")])
  const TAKEN := State(map["a" := SHARED], [Record(0, "a", "1", "x", "p", "k"), Record(1, "a", "2", "y", "q", "l")])

  lemma StatementRecorded()
    ensures Run(TwoStatements(), EMPTY, [Register("a", SHARED), Ingest("a", "k", "x", None)]) == RECORDED
  {
    var commands := [Register("a", SHARED), Ingest("a", "k", "x", None)];
    assert commands[..1] == [commands[0]] && commands[..1][..0] == [];
    assert Run(TwoStatements(), EMPTY, commands[..1]) == State(map["a" := SHARED], []);
  }

  lemma ArtifactAnswers()
    ensures IngestStep(TwoStatements(), RECORDED, TWICE) == (RECORDED, Accepted(RECORDED.records[0], true))
  {
    assert RECORDED.records[..0] == [];
    assert "k" != "l";
    assert Find(RECORDED.records, ByKey("l")) == None;
  }

  lemma KeyIsTaken()
    ensures Run(TwoStatements(), RECORDED, [TAKER]) == TAKEN
  {
    var records := RECORDED.records;
    assert [TAKER][..0] == [] && records[..0] == [];
    assert "k" != "l" && "x" != "y" && "1" != "2";
    assert Find(records, ByKey("l")) == None && Find(records, ByArtifact("y")) == None;
    assert Find(records, ByIdentity("a", "2")) == None;
  }

  /** A command accepted by its artifact does not reserve its key: once another
      statement has taken the key, the same command is refused. */
  lemma ReplayedKeyCanBeTaken()
    ensures var s := Run(TwoStatements(), EMPTY, [Register("a", SHARED), Ingest("a", "k", "x", None)]);
            var (now, reply) := IngestStep(TwoStatements(), s, TWICE);
            var t := Run(TwoStatements(), now, [TAKER]);
            && reply == Accepted(Record(0, "a", "1", "x", "p", "k"), true)
            && IngestStep(TwoStatements(), t, TWICE) == (t, Refused(KeyReused))
  {
    StatementRecorded();
    ArtifactAnswers();
    KeyIsTaken();
    assert Find(TAKEN.records, ByKey("l")) == Some(TAKEN.records[1]);
    assert "x" != "y";
  }

  // ------------------------------------------------------------ the registry

  class EvidenceRegistry {
    var accounts: map<string, Account>
    var records: seq<Record>

    ghost function Contents(): State
      reads this
    {
      State(accounts, records)
    }

    constructor ()
      ensures Contents() == EMPTY
    {
      accounts, records := map[], [];
    }

    method RegisterAccount(reference: string, account: Account) returns (reply: Reply)
      modifies this
      ensures (Contents(), reply) == RegisterStep(old(Contents()), Register(reference, account))
      ensures reply.Registered? <==> reference in accounts && accounts[reference] == account
      ensures reply.Registered? ==> (reply.replayed <==> reference in old(accounts))
      ensures accounts.Keys == old(accounts.Keys) + {reference} && records == old(records)
      ensures forall a :: a in old(accounts) ==> accounts[a] == old(accounts)[a]
    {
      if reference in accounts {
        if accounts[reference] != account {
          return Refused(ReferenceReused);
        }
        return Registered(true);
      }
      accounts := accounts[reference := account];
      reply := Registered(false);
    }

    method AcceptStatement(parse: Adapter, c: Command) returns (reply: Reply)
      requires c.Ingest?
      modifies this`records
      ensures (Contents(), reply) == IngestStep(parse, old(Contents()), c)
      ensures Inv(parse, old(Contents())) ==> IngestsSoundly(parse, old(Contents()), c, (Contents(), reply))
    {
      if Inv(parse, Contents()) {
        IngestIsSound(parse, Contents(), c);
      }
      var refusal := IngestRefusal(parse, State(accounts, records), c);
      if refusal.Some? {
        return Refused(refusal.value);
      }
      var statement := parse(c.artifact).value;
      var prior := Find(records, ByKey(c.key));
      if prior.Some? {
        if prior.value.artifact != c.artifact || prior.value.payload != statement.payload {
          return Refused(KeyReused);
        }
        return Accepted(prior.value, true);
      }
      prior := Find(records, ByArtifact(c.artifact));
      if prior.Some? {
        return Accepted(prior.value, true);
      }
      prior := Find(records, ByIdentity(c.reference, statement.identity));
      if prior.Some? {
        if prior.value.payload != statement.payload {
          return Refused(IdentityReused);
        }
        return Accepted(prior.value, true);
      }
      var r := Record(|records|, c.reference, statement.identity, c.artifact, statement.payload, c.key);
      records := records + [r];
      reply := Accepted(r, false);
    }
  }
}
