/** The in-memory posting ledger as a value: idempotent posting, append-only
    reversal, two receipt caches and the sums of the trial balance. */
module Postings {
  import opened Sums
  import opened JournalTables

  const JOURNAL_PREFIX := "urn:cwl:accounting:general_journal:"
  const RECEIPT_PREFIX := "urn:cwl:accounting:posting_receipt:"
  const REVERSAL_SUFFIX := ":reversal"

  /** A SHA-256 digest. The hash is taken to be injective, so the digest of a
      reversal command is the command's own evidence. */
  datatype Digest =
    | Source(text: string)
    | OfReversal(tenant: string, key: string, original: string, date: Date, reason: string)

  datatype PostedJournal = PostedJournal(
    reference: string, tenant: string, entity: string, book: string, date: Date,
    sourceId: string, digest: Digest, policyVersion: string, ruleVersion: string, lines: seq<Line>,
    reversalOf: Option<string>, reversalReason: Option<string>, reversalKey: Option<string>)

  datatype Receipt = Receipt(
    reference: string, journal: string, sourceId: string, digest: Digest,
    tenant: string, entity: string, book: string, policyVersion: string, ruleVersion: string,
    lineCount: nat, reversalOf: Option<string>)

  datatype Proposal = Proposal(
    id: string, key: string, tenant: string, entity: string, bookRole: string, currency: string,
    date: Date, digest: string, lines: seq<ProposedLine>)

  datatype Policy = Policy(
    tenant: string, entity: string, book: string, bookRole: string, currency: string, functional: string,
    start: Date, end: Date, mapping: map<string, string>, policyVersion: string, ruleVersion: string)

  predicate IsHex(c: char) {
    '0' <= c <= '9' || 'a' <= c <= 'f' || 'A' <= c <= 'F'
  }

  /** A hyphenated UUID, as RFC 9562 section 4 writes it. */
  predicate IsUuid(text: string) {
    |text| == 36 && forall i :: 0 <= i < 36 ==> if i in {8, 13, 18, 23} then text[i] == '-' else IsHex(text[i])
  }

  /** A lower snake-case code of two to sixty-four characters. */
  predicate IsCode(text: string) {
    && 2 <= |text| <= 64 && 'a' <= text[0] <= 'z'
    && forall c :: c in text ==> 'a' <= c <= 'z' || '0' <= c <= '9' || c == '_'
  }

  function ProposedNet(): ProposedLine -> int {
    (l: ProposedLine) => l.credit - l.debit
  }

  /** What a constructed proposal guarantees. */
  predicate ValidProposal(p: Proposal) {
    && IsUuid(p.id) && p.key != "" && |p.lines| >= 2
    && (forall l :: l in p.lines ==> l.number >= 1 && (l.debit > 0) != (l.credit > 0))
    && (forall i, j :: 0 <= i < j < |p.lines| ==> p.lines[i].number != p.lines[j].number)
    && Sum(p.lines, ProposedNet()) == 0
  }

  datatype Error =
    | WrongTenant | WrongEntity | WrongBookRole | ClosedPeriod | WrongCurrency | ForeignExchange | RoleNotMapped
    | Immutable | Conflict | BadReason | EmptyKey | NoSuchJournal | NotReversible | WrongScope
    | AlreadyReversed | BeforeOriginal | OutsidePolicy

  datatype Reply = Receipted(receipt: Receipt) | Raised(error: Error)

  /** Journals are kept in the order they were added; the other dictionaries are
      keyed by tenant and key, or tenant and original journal reference. */
  datatype Ledger = Ledger(
    journals: seq<PostedJournal>,
    receipts: map<(string, string), (Digest, Receipt)>,
    reversalReceipts: map<(string, string), Receipt>,
    evidence: map<(string, string), (string, string, Digest)>)

  datatype Outcome = Outcome(ledger: Ledger, reply: Reply)

  function EmptyLedger(): Ledger {
    Ledger([], map[], map[], map[])
  }

  predicate Permits(policy: Policy, date: Date) {
    policy.start <= date <= policy.end
  }

  function Find(js: seq<PostedJournal>, tenant: string, reference: string): (found: Option<PostedJournal>)
    ensures found.Some? ==> found.value in js && found.value.tenant == tenant && found.value.reference == reference
  {
    if js == [] then None
    else if js[|js| - 1].tenant == tenant && js[|js| - 1].reference == reference then Some(js[|js| - 1])
    else Find(js[..|js| - 1], tenant, reference)
  }

  lemma {:induction false} NotFound(js: seq<PostedJournal>, tenant: string, reference: string)
    ensures Find(js, tenant, reference).None? <==> forall j :: j in js ==>
            j.tenant != tenant || j.reference != reference
  {
    if js != [] {
      NotFound(js[..|js| - 1], tenant, reference);
      assert js == js[..|js| - 1] + [js[|js| - 1]];
    }
  }

  // ------------------------------------------------------------------ posting

  function CachedReceipt(s: Ledger, tenant: string, key: string, digest: Digest): Option<Reply> {
    if (tenant, key) !in s.receipts then None
    else
      var (priorDigest, receipt) := s.receipts[(tenant, key)];
      if receipt.tenant != tenant then None
      else if priorDigest != digest then Some(Raised(Conflict))
      else Some(Receipted(receipt))
  }

  function ScopeError(p: Proposal, policy: Policy): Option<Error> {
    if p.tenant != policy.tenant then Some(WrongTenant)
    else if p.entity != policy.entity then Some(WrongEntity)
    else if p.bookRole != policy.bookRole then Some(WrongBookRole)
    else if !Permits(policy, p.date) then Some(ClosedPeriod)
    else if p.currency != policy.currency then Some(WrongCurrency)
    else if policy.currency != policy.functional then Some(ForeignExchange)
    else None
  }

  function JournalOf(p: Proposal, policy: Policy): PostedJournal
    requires AllMapped(p.lines, policy.mapping)
  {
    PostedJournal(JOURNAL_PREFIX + p.id, p.tenant, p.entity, policy.book, p.date, p.id, Source(p.digest),
      policy.policyVersion, policy.ruleVersion, Resolved(p.lines, policy.mapping), None, None, None)
  }

  function ReceiptOf(p: Proposal, policy: Policy): Receipt {
    Receipt(RECEIPT_PREFIX + p.id, JOURNAL_PREFIX + p.id, p.id, Source(p.digest), p.tenant, p.entity, policy.book,
      policy.policyVersion, policy.ruleVersion, |p.lines|, None)
  }

  function WithPosted(s: Ledger, p: Proposal, policy: Policy): Ledger
    requires AllMapped(p.lines, policy.mapping)
  {
    s.(journals := s.journals + [JournalOf(p, policy)],
       receipts := s.receipts[(p.tenant, p.key) := (Source(p.digest), ReceiptOf(p, policy))])
  }

  function PostStep(s: Ledger, p: Proposal, policy: Policy): Outcome {
    var cached := CachedReceipt(s, p.tenant, p.key, Source(p.digest));
    if cached.Some? then Outcome(s, cached.value)
    else if ScopeError(p, policy).Some? then Outcome(s, Raised(ScopeError(p, policy).value))
    else if !AllMapped(p.lines, policy.mapping) then Outcome(s, Raised(RoleNotMapped))
    else if Find(s.journals, p.tenant, JOURNAL_PREFIX + p.id).Some? then Outcome(s, Raised(Immutable))
    else Outcome(WithPosted(s, p, policy), Receipted(ReceiptOf(p, policy)))
  }

  // ----------------------------------------------------------------- reversal

  /** Rebuild the receipt of a retained journal. */
  function ReceiptFor(j: PostedJournal): Receipt {
    Receipt(j.reference + ":receipt", j.reference, j.sourceId, j.digest, j.tenant, j.entity, j.book,
      j.policyVersion, j.ruleVersion, |j.lines|, j.reversalOf)
  }

  function CachedReversal(s: Ledger, tenant: string, reference: string, key: string, digest: Digest): Option<Reply> {
    var k := (tenant, reference);
    if k !in s.reversalReceipts || s.reversalReceipts[k].tenant != tenant || k !in s.evidence then None
    else
      var (priorKey, priorReference, priorDigest) := s.evidence[k];
      if priorKey != key || priorReference != reference then None
      else if priorDigest != digest then Some(Raised(Conflict))
      else Some(Receipted(s.reversalReceipts[k]))
  }

  function WithReversalCached(s: Ledger, tenant: string, reference: string, receipt: Receipt, key: string,
      digest: Digest): Ledger {
    s.(reversalReceipts := s.reversalReceipts[(tenant, reference) := receipt],
       evidence := s.evidence[(tenant, reference) := (key, reference, digest)])
  }

  function ReversalJournal(
      original: PostedJournal, reference: string, date: Date, reason: string, policy: Policy, key: string,
      digest: Digest): PostedJournal {
    PostedJournal(reference + REVERSAL_SUFFIX, original.tenant, original.entity, original.book, date,
      original.sourceId, digest, policy.policyVersion, policy.ruleVersion, Opposite(original.lines),
      Some(reference), Some(reason), Some(key))
  }

  /** The default command key is written from the reference. */
  function CommandKey(reference: string, key: Option<string>): string {
    if key.None? then "reversal:" + reference else key.value
  }

  /** A journal already sits at the reversal reference. */
  function ReplayOccupant(
      s: Ledger, occupant: PostedJournal, reference: string, policy: Policy, key: string, digest: Digest): Outcome {
    if occupant.reversalOf != Some(reference) then Outcome(s, Raised(Immutable))
    else if occupant.reversalKey != Some(key) then Outcome(s, Raised(AlreadyReversed))
    else if occupant.digest != digest then Outcome(s, Raised(Conflict))
    else
      var receipt := ReceiptFor(occupant);
      Outcome(WithReversalCached(s, policy.tenant, reference, receipt, key, digest), Receipted(receipt))
  }

  function AppendReversal(
      s: Ledger, original: PostedJournal, reference: string, date: Date, reason: string, policy: Policy, key: string,
      digest: Digest): Outcome {
    var reversal := ReversalJournal(original, reference, date, reason, policy, key, digest);
    var receipt := Receipt(reversal.reference + ":receipt", reversal.reference, original.sourceId, digest,
      original.tenant, original.entity, original.book, policy.policyVersion, policy.ruleVersion,
      |reversal.lines|, Some(reference));
    Outcome(
      WithReversalCached(s.(journals := s.journals + [reversal]), policy.tenant, reference, receipt, key, digest),
      Receipted(receipt))
  }

  function ReverseUncached(
      s: Ledger, reference: string, date: Date, reason: string, policy: Policy, key: string, digest: Digest): Outcome {
    var found := Find(s.journals, policy.tenant, reference);
    if found.None? then Outcome(s, Raised(NoSuchJournal))
    else
      var original := found.value;
      if original.reversalOf.Some? then Outcome(s, Raised(NotReversible))
      else if original.entity != policy.entity || original.book != policy.book then Outcome(s, Raised(WrongScope))
      else
        var occupant := Find(s.journals, original.tenant, reference + REVERSAL_SUFFIX);
        if occupant.Some? then ReplayOccupant(s, occupant.value, reference, policy, key, digest)
        else if date < original.date then Outcome(s, Raised(BeforeOriginal))
        else if !Permits(policy, date) then Outcome(s, Raised(OutsidePolicy))
        else AppendReversal(s, original, reference, date, reason, policy, key, digest)
  }

  function ReverseStep(
      s: Ledger, reference: string, date: Date, reason: string, policy: Policy, key: Option<string>): Outcome {
    if !IsCode(reason) then Outcome(s, Raised(BadReason))
    else
      var commandKey := CommandKey(reference, key);
      if commandKey == "" then Outcome(s, Raised(EmptyKey))
      else
        var digest := OfReversal(policy.tenant, commandKey, reference, date, reason);
        var cached := CachedReversal(s, policy.tenant, reference, commandKey, digest);
        if cached.Some? then Outcome(s, cached.value)
        else ReverseUncached(s, reference, date, reason, policy, commandKey, digest)
  }

  // ------------------------------------------------------------ trial balance

  function InBook(tenant: string, entity: string, book: string, through: Date): PostedJournal -> bool {
    (j: PostedJournal) => j.tenant == tenant && j.entity == entity && j.book == book && j.date <= through
  }

  function LinesOf(sel: PostedJournal -> bool, w: Line -> int): PostedJournal -> int {
    (j: PostedJournal) => if sel(j) then Sum(j.lines, w) else 0
  }

  predicate Touched(js: seq<PostedJournal>, sel: PostedJournal -> bool, code: string) {
    exists j, l :: j in js && sel(j) && l in j.lines && l.account == code
  }

  function SideOf(js: seq<PostedJournal>, sel: PostedJournal -> bool, side: Side, code: string): int {
    Sum(js, LinesOf(sel, LineIn(side, Only(code))))
  }
}
