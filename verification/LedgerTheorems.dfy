/** What holds of the posting ledger after any run of commands. */
module LedgerTheorems {
  import opened Sums
  import opened JournalTables
  import opened Postings

  datatype Command =
    | Post(proposal: Proposal, postingPolicy: Policy)
    | Reverse(reference: string, date: Date, reason: string, reversalPolicy: Policy, key: Option<string>)

  function Step(s: Ledger, c: Command): Outcome {
    match c
    case Post(p, policy) => PostStep(s, p, policy)
    case Reverse(reference, date, reason, policy, key) => ReverseStep(s, reference, date, reason, policy, key)
  }

  /** Proposals are constructed, hence valid. */
  predicate Valid(c: Command) {
    c.Post? ==> ValidProposal(c.proposal)
  }

  function Run(s: Ledger, commands: seq<Command>): Ledger {
    if commands == [] then s else Step(Run(s, commands[..|commands| - 1]), commands[|commands| - 1]).ledger
  }

  predicate AllValid(commands: seq<Command>) {
    forall c :: c in commands ==> Valid(c)
  }

  /** A command that raises leaves all four dictionaries as they were. */
  lemma RaiseChangesNothing(s: Ledger, c: Command)
    requires Step(s, c).reply.Raised?
    ensures Step(s, c).ledger == s
  {
  }

  // ------------------------------------------------------------ the invariant

  predicate IsOriginalReference(reference: string) {
    JOURNAL_PREFIX <= reference && IsUuid(reference[|JOURNAL_PREFIX|..])
  }

  /** A reversal bears the key, the date and the reason that its digest was made from. */
  predicate BearsItsCommand(j: PostedJournal) {
    && j.reversalOf.Some? && j.reversalKey.Some? && j.reversalReason.Some?
    && j.digest == OfReversal(j.tenant, j.reversalKey.value, j.reversalOf.value, j.date, j.reversalReason.value)
  }

  /** What a journal must satisfy to come after the journals js. */
  predicate Fits(js: seq<PostedJournal>, j: PostedJournal) {
    && Find(js, j.tenant, j.reference).None?
    && Sum(j.lines, NetIn(Every())) == 0
    && if j.reversalOf.None? then IsOriginalReference(j.reference) && j.reference == JOURNAL_PREFIX + j.sourceId
       else
         var found := Find(js, j.tenant, j.reversalOf.value);
         && j.reference == j.reversalOf.value + REVERSAL_SUFFIX
         && found.Some? && found.value.reversalOf.None?
         && found.value.date <= j.date && found.value.entity == j.entity && found.value.book == j.book
         && found.value.sourceId == j.sourceId
         && j.lines == Opposite(found.value.lines)
         && BearsItsCommand(j)
  }

  predicate Built(js: seq<PostedJournal>) {
    js == [] || (Built(js[..|js| - 1]) && Fits(js[..|js| - 1], js[|js| - 1]))
  }

  /** A cached reversal receipt is the one rebuilt from the stored journal. */
  predicate CacheEntryOk(s: Ledger, k: (string, string)) {
    var found := Find(s.journals, k.0, k.1 + REVERSAL_SUFFIX);
    && k in s.reversalReceipts && k in s.evidence
    && found.Some? && found.value.reversalOf == Some(k.1) && BearsItsCommand(found.value)
    && s.reversalReceipts[k] == ReceiptFor(found.value)
    && s.evidence[k] == (found.value.reversalKey.value, k.1, found.value.digest)
  }

  /** The receipt of a posted journal names it and repeats its evidence. */
  predicate Receipts(receipt: Receipt, j: PostedJournal) {
    && receipt.journal == j.reference && receipt.reference == RECEIPT_PREFIX + j.sourceId
    && receipt.sourceId == j.sourceId && receipt.digest == j.digest
    && receipt.tenant == j.tenant && receipt.entity == j.entity && receipt.book == j.book
    && receipt.policyVersion == j.policyVersion && receipt.ruleVersion == j.ruleVersion
    && receipt.lineCount == |j.lines| && receipt.reversalOf.None?
  }

  predicate ReceiptEntryOk(s: Ledger, k: (string, string)) {
    k in s.receipts &&
    var (digest, receipt) := s.receipts[k];
    && receipt.tenant == k.0 && receipt.digest == digest
    && var found := Find(s.journals, k.0, receipt.journal);
       && found.Some? && found.value.reversalOf.None? && Receipts(receipt, found.value)
  }

  ghost predicate LedgerInv(s: Ledger) {
    && Built(s.journals)
    && (forall k :: k in s.receipts ==> ReceiptEntryOk(s, k))
    && (forall k :: k in s.reversalReceipts || k in s.evidence ==> CacheEntryOk(s, k))
  }

  // --------------------------------------------------------- lookups and growth

  lemma FindAppend(js: seq<PostedJournal>, j: PostedJournal, tenant: string, reference: string)
    ensures Find(js + [j], tenant, reference) ==
            if j.tenant == tenant && j.reference == reference then Some(j) else Find(js, tenant, reference)
  {
    assert (js + [j])[..|js|] == js;
  }

  lemma GrowthKeepsEntries(s: Ledger, t: Ledger, j: PostedJournal)
    requires LedgerInv(s) && Fits(s.journals, j) && t.journals == s.journals + [j]
    ensures Built(t.journals)
    ensures forall k :: k in s.receipts && k in t.receipts && t.receipts[k] == s.receipts[k] ==> ReceiptEntryOk(t, k)
    ensures forall k :: (k in s.reversalReceipts && k in t.reversalReceipts && k in t.evidence &&
                         t.reversalReceipts[k] == s.reversalReceipts[k] && t.evidence[k] == s.evidence[k]) ==>
              CacheEntryOk(t, k)
  {
    assert t.journals[..|t.journals| - 1] == s.journals;
    forall k | k in s.receipts && k in t.receipts && t.receipts[k] == s.receipts[k] ensures ReceiptEntryOk(t, k) {
      assert ReceiptEntryOk(s, k);
      FindAppend(s.journals, j, k.0, s.receipts[k].1.journal);
    }
    forall k | k in s.reversalReceipts && k in t.reversalReceipts && k in t.evidence &&
        t.reversalReceipts[k] == s.reversalReceipts[k] && t.evidence[k] == s.evidence[k]
      ensures CacheEntryOk(t, k)
    {
      assert CacheEntryOk(s, k);
      FindAppend(s.journals, j, k.0, k.1 + REVERSAL_SUFFIX);
    }
  }

  lemma {:induction false} ResolvedNet(proposed: seq<ProposedLine>, mapping: map<string, string>)
    requires AllMapped(proposed, mapping)
    ensures Sum(Resolved(proposed, mapping), NetIn(Every())) == Sum(proposed, ProposedNet())
  {
    if proposed != [] {
      var init, l := proposed[..|proposed| - 1], proposed[|proposed| - 1];
      ResolvedNet(init, mapping);
      SumAppend(Resolved(init, mapping), Line(l.number, mapping[l.role], l.role, l.debit, l.credit), NetIn(Every()));
    }
  }

  lemma PostKeepsInv(s: Ledger, p: Proposal, policy: Policy)
    requires LedgerInv(s) && ValidProposal(p)
    ensures LedgerInv(PostStep(s, p, policy).ledger)
  {
    var t := PostStep(s, p, policy).ledger;
    if t != s {
      var j := JournalOf(p, policy);
      ResolvedNet(p.lines, policy.mapping);
      assert j.reference[|JOURNAL_PREFIX|..] == p.id;
      GrowthKeepsEntries(s, t, j);
      FindAppend(s.journals, j, p.tenant, j.reference);
      forall k | k in t.receipts ensures ReceiptEntryOk(t, k) {
        if k != (p.tenant, p.key) {
          assert k in s.receipts;
        }
      }
    }
  }

  lemma {:induction false} BuiltEach(js: seq<PostedJournal>, j: PostedJournal)
    requires Built(js) && j in js
    ensures Sum(j.lines, NetIn(Every())) == 0
    ensures Find(js, j.tenant, j.reference) == Some(j)
    ensures j.reversalOf.None? ==> IsOriginalReference(j.reference) && j.reference == JOURNAL_PREFIX + j.sourceId
    ensures j.reversalOf.Some? ==> j.reference == j.reversalOf.value + REVERSAL_SUFFIX && BearsItsCommand(j)
  {
    var init, last := js[..|js| - 1], js[|js| - 1];
    if j != last {
      BuiltEach(init, j);
      assert last.tenant != j.tenant || last.reference != j.reference;
    }
  }

  /** What a reversal appends fits the ledger. */
  lemma ReversalFits(
      s: Ledger, original: PostedJournal, reference: string, date: Date, reason: string, policy: Policy, key: string,
      digest: Digest)
    requires LedgerInv(s) && Find(s.journals, policy.tenant, reference) == Some(original)
    requires original.reversalOf.None? && original.date <= date
    requires Find(s.journals, original.tenant, reference + REVERSAL_SUFFIX).None?
    requires digest == OfReversal(policy.tenant, key, reference, date, reason)
    ensures Fits(s.journals, ReversalJournal(original, reference, date, reason, policy, key, digest))
  {
    OppositeNet(original.lines, Every());
    BuiltEach(s.journals, original);
  }

  lemma CachedAfterReversal(s: Ledger, t: Ledger, tenant: string, reference: string, j: PostedJournal)
    requires LedgerInv(s) && (t.journals == s.journals || (t.journals == s.journals + [j] && Fits(s.journals, j)))
    requires Find(t.journals, tenant, reference + REVERSAL_SUFFIX) == Some(j)
    requires j.reversalOf == Some(reference) && BearsItsCommand(j)
    requires t == WithReversalCached(s.(journals := t.journals), tenant, reference, ReceiptFor(j),
             j.reversalKey.value, j.digest)
    ensures LedgerInv(t)
  {
    if t.journals != s.journals {
      GrowthKeepsEntries(s, t, j);
    }
    forall k | k in t.receipts ensures ReceiptEntryOk(t, k) {
      assert ReceiptEntryOk(s, k);
    }
    forall k | k in t.reversalReceipts || k in t.evidence ensures CacheEntryOk(t, k) {
      if k != (tenant, reference) {
        assert CacheEntryOk(s, k);
      }
    }
  }

  lemma ReplayKeepsInv(s: Ledger, occupant: PostedJournal, reference: string, policy: Policy, key: string,
      digest: Digest)
    requires LedgerInv(s) && Find(s.journals, policy.tenant, reference + REVERSAL_SUFFIX) == Some(occupant)
    ensures LedgerInv(ReplayOccupant(s, occupant, reference, policy, key, digest).ledger)
  {
    var outcome := ReplayOccupant(s, occupant, reference, policy, key, digest);
    if outcome.reply.Receipted? {
      BuiltEach(s.journals, occupant);
      CachedAfterReversal(s, outcome.ledger, policy.tenant, reference, occupant);
    }
  }

  lemma AppendKeepsInv(
      s: Ledger, original: PostedJournal, reference: string, date: Date, reason: string, policy: Policy, key: string,
      digest: Digest)
    requires LedgerInv(s) && Find(s.journals, policy.tenant, reference) == Some(original)
    requires original.reversalOf.None? && original.date <= date
    requires Find(s.journals, original.tenant, reference + REVERSAL_SUFFIX).None?
    requires digest == OfReversal(policy.tenant, key, reference, date, reason)
    ensures LedgerInv(AppendReversal(s, original, reference, date, reason, policy, key, digest).ledger)
  {
    var j := ReversalJournal(original, reference, date, reason, policy, key, digest);
    ReversalFits(s, original, reference, date, reason, policy, key, digest);
    FindAppend(s.journals, j, policy.tenant, j.reference);
    CachedAfterReversal(s, AppendReversal(s, original, reference, date, reason, policy, key, digest).ledger,
      policy.tenant, reference, j);
  }

  lemma ReverseKeepsInv(s: Ledger, reference: string, date: Date, reason: string, policy: Policy, key: string,
      digest: Digest)
    requires LedgerInv(s) && digest == OfReversal(policy.tenant, key, reference, date, reason)
    ensures LedgerInv(ReverseUncached(s, reference, date, reason, policy, key, digest).ledger)
  {
    var found := Find(s.journals, policy.tenant, reference);
    if found.Some? && found.value.reversalOf.None? {
      var occupant := Find(s.journals, policy.tenant, reference + REVERSAL_SUFFIX);
      if occupant.Some? {
        ReplayKeepsInv(s, occupant.value, reference, policy, key, digest);
      } else if found.value.date <= date {
        AppendKeepsInv(s, found.value, reference, date, reason, policy, key, digest);
      }
    }
  }

  lemma StepKeepsInv(s: Ledger, c: Command)
    requires LedgerInv(s) && Valid(c)
    ensures LedgerInv(Step(s, c).ledger)
  {
    match c
    case Post(p, policy) => PostKeepsInv(s, p, policy);
    case Reverse(reference, date, reason, policy, key) =>
      var commandKey := CommandKey(reference, key);
      ReverseKeepsInv(s, reference, date, reason, policy, commandKey,
        OfReversal(policy.tenant, commandKey, reference, date, reason));
  }

  lemma {:induction false} RunKeepsInv(commands: seq<Command>)
    requires AllValid(commands)
    ensures LedgerInv(Run(EmptyLedger(), commands))
  {
    if commands != [] {
      var init, c := commands[..|commands| - 1], commands[|commands| - 1];
      assert c in commands && forall d :: d in init ==> d in commands;
      RunKeepsInv(init);
      StepKeepsInv(Run(EmptyLedger(), init), c);
    }
  }

  // ---------------------------------------------------------- reversal caches

  /** Each original has at most one reversal. */
  lemma AtMostOneReversal(commands: seq<Command>, a: PostedJournal, b: PostedJournal)
    requires AllValid(commands)
    requires a in Run(EmptyLedger(), commands).journals && b in Run(EmptyLedger(), commands).journals
    requires a.tenant == b.tenant && a.reversalOf.Some? && a.reversalOf == b.reversalOf
    ensures a == b
  {
    RunKeepsInv(commands);
    BuiltEach(Run(EmptyLedger(), commands).journals, a);
    BuiltEach(Run(EmptyLedger(), commands).journals, b);
  }

  /** Whatever occupies an original's reversal reference reverses it: a UUID-shaped
      id cannot form a reversal reference, so the foreign-occupant branch of
      `reverse` is unreachable. */
  lemma OccupantIsItsReversal(s: Ledger, tenant: string, reference: string)
    requires LedgerInv(s)
    requires var found := Find(s.journals, tenant, reference); found.Some? && found.value.reversalOf.None?
    requires Find(s.journals, tenant, reference + REVERSAL_SUFFIX).Some?
    ensures Find(s.journals, tenant, reference + REVERSAL_SUFFIX).value.reversalOf == Some(reference)
  {
    var original := Find(s.journals, tenant, reference).value;
    var occupant := Find(s.journals, tenant, reference + REVERSAL_SUFFIX).value;
    BuiltEach(s.journals, original);
    BuiltEach(s.journals, occupant);
    assert |reference| == |JOURNAL_PREFIX| + 36;
    if occupant.reversalOf.Some? {
      var o := occupant.reversalOf.value;
      assert (o + REVERSAL_SUFFIX)[..|o|] == o && (reference + REVERSAL_SUFFIX)[..|reference|] == reference;
    }
  }

  /** The policy is in the scope of the journal it reverses. */
  predicate InScope(s: Ledger, reference: string, policy: Policy) {
    var found := Find(s.journals, policy.tenant, reference);
    found.Some? ==> found.value.entity == policy.entity && found.value.book == policy.book
  }

  lemma {:induction false} ReversalHasOriginal(js: seq<PostedJournal>, j: PostedJournal)
    requires Built(js) && j in js && j.reversalOf.Some?
    ensures var found := Find(js, j.tenant, j.reversalOf.value);
            && found.Some? && found.value.reversalOf.None? && found.value.date <= j.date
            && found.value.entity == j.entity && found.value.book == j.book && found.value.sourceId == j.sourceId
            && j.lines == Opposite(found.value.lines)
  {
    var init, last := js[..|js| - 1], js[|js| - 1];
    assert js == init + [last];
    FindAppend(init, last, j.tenant, j.reversalOf.value);
    if j != last {
      ReversalHasOriginal(init, j);
    }
  }

  /** A cache hit points at a stored original and its stored reversal. */
  lemma HitIsStored(s: Ledger, tenant: string, reference: string, key: string, digest: Digest)
    requires LedgerInv(s) && CachedReversal(s, tenant, reference, key, digest).Some?
    ensures var original, j := Find(s.journals, tenant, reference), Find(s.journals, tenant, reference +
            REVERSAL_SUFFIX);
            && original.Some? && original.value.reversalOf.None?
            && j.Some? && j.value.reversalOf == Some(reference) && j.value.reversalKey == Some(key)
            && BearsItsCommand(j.value)
            && CachedReversal(s, tenant, reference, key, digest).value ==
               if j.value.digest != digest then Raised(Conflict) else Receipted(ReceiptFor(j.value))
  {
    assert CacheEntryOk(s, (tenant, reference));
    ReversalHasOriginal(s.journals, Find(s.journals, tenant, reference + REVERSAL_SUFFIX).value);
  }

  lemma CachedEqualsRebuilt(
      s: Ledger, reference: string, date: Date, reason: string, policy: Policy, key: string, digest: Digest)
    requires LedgerInv(s) && CachedReversal(s, policy.tenant, reference, key, digest).Some?
    ensures var cached := CachedReversal(s, policy.tenant, reference, key, digest).value;
            var uncached := ReverseUncached(s, reference, date, reason, policy, key, digest);
            && (InScope(s, reference, policy) ==>
                  uncached.reply == cached && uncached.ledger.journals == s.journals
                      && uncached.ledger.receipts == s.receipts)
            && (!InScope(s, reference, policy) ==> uncached.reply == Raised(WrongScope))
  {
    HitIsStored(s, policy.tenant, reference, key, digest);
  }

  /** Two outcomes that differ in the caches at most. */
  predicate SameButCaches(a: Outcome, b: Outcome) {
    a.reply == b.reply && a.ledger.journals == b.ledger.journals && a.ledger.receipts == b.ledger.receipts
  }

  lemma CacheMakesNoDifference(
      s: Ledger, reference: string, date: Date, reason: string, policy: Policy, key: Option<string>)
    requires LedgerInv(s) && InScope(s, reference, policy)
    ensures var commandKey := CommandKey(reference, key);
            var digest := OfReversal(policy.tenant, commandKey, reference, date, reason);
            var a := ReverseStep(s, reference, date, reason, policy, key);
            var b := ReverseUncached(s, reference, date, reason, policy, commandKey, digest);
            IsCode(reason) && commandKey != "" ==> SameButCaches(a, b)
  {
    var commandKey := CommandKey(reference, key);
    var digest := OfReversal(policy.tenant, commandKey, reference, date, reason);
    if CachedReversal(s, policy.tenant, reference, commandKey, digest).Some? {
      CachedEqualsRebuilt(s, reference, date, reason, policy, commandKey, digest);
    }
  }

  lemma ReplayIgnoresCaches(
      s: Ledger, t: Ledger, occupant: PostedJournal, reference: string, policy: Policy, key: string, digest: Digest)
    requires t.journals == s.journals && t.receipts == s.receipts
    ensures SameButCaches(
              ReplayOccupant(s, occupant, reference, policy, key, digest),
              ReplayOccupant(t, occupant, reference, policy, key, digest))
  {
  }

  lemma AppendIgnoresCaches(
      s: Ledger, t: Ledger, original: PostedJournal, reference: string, date: Date, reason: string, policy: Policy,
      key: string, digest: Digest)
    requires t.journals == s.journals && t.receipts == s.receipts
    ensures SameButCaches(
              AppendReversal(s, original, reference, date, reason, policy, key, digest),
              AppendReversal(t, original, reference, date, reason, policy, key, digest))
  {
  }

  lemma UncachedIgnoresCaches(
      s: Ledger, t: Ledger, reference: string, date: Date, reason: string, policy: Policy, key: string, digest: Digest)
    requires t.journals == s.journals && t.receipts == s.receipts
    ensures SameButCaches(
              ReverseUncached(s, reference, date, reason, policy, key, digest),
              ReverseUncached(t, reference, date, reason, policy, key, digest))
  {
    var found := Find(s.journals, policy.tenant, reference);
    if found.Some? {
      AppendIgnoresCaches(s, t, found.value, reference, date, reason, policy, key, digest);
      var occupant := Find(s.journals, found.value.tenant, reference + REVERSAL_SUFFIX);
      if occupant.Some? {
        ReplayIgnoresCaches(s, t, occupant.value, reference, policy, key, digest);
      }
    }
  }

  /** Losing any cache entries changes no outcome of a reversal under a policy in
      the original's scope: the outcome is settled by the journals alone. */
  lemma CachesAreTransparent(
      s: Ledger, t: Ledger, reference: string, date: Date, reason: string, policy: Policy, key: Option<string>)
    requires LedgerInv(s) && LedgerInv(t) && t.journals == s.journals && t.receipts == s.receipts
    requires InScope(s, reference, policy)
    ensures var a, b := ReverseStep(s, reference, date, reason, policy, key), ReverseStep(t, reference, date, reason,
            policy, key);
            SameButCaches(a, b)
  {
    var commandKey := CommandKey(reference, key);
    var digest := OfReversal(policy.tenant, commandKey, reference, date, reason);
    CacheMakesNoDifference(s, reference, date, reason, policy, key);
    CacheMakesNoDifference(t, reference, date, reason, policy, key);
    UncachedIgnoresCaches(s, t, reference, date, reason, policy, commandKey, digest);
  }

  function Erased(s: Ledger): Ledger {
    s.(reversalReceipts := map[], evidence := map[])
  }

  lemma ErasedKeepsInv(s: Ledger)
    requires LedgerInv(s)
    ensures LedgerInv(Erased(s))
  {
    forall k | k in s.receipts ensures ReceiptEntryOk(Erased(s), k) {
      assert ReceiptEntryOk(s, k);
    }
  }

  /** An emptied cache is a ledger like any other, and under a policy in the
      original's scope nobody can tell. */
  lemma ErasureIsTransparent(
      s: Ledger, reference: string, date: Date, reason: string, policy: Policy, key: Option<string>)
    requires LedgerInv(s) && InScope(s, reference, policy)
    ensures LedgerInv(Erased(s))
    ensures SameButCaches(
              ReverseStep(s, reference, date, reason, policy, key),
              ReverseStep(Erased(s), reference, date, reason, policy, key))
  {
    ErasedKeepsInv(s);
    CachesAreTransparent(s, Erased(s), reference, date, reason, policy, key);
  }

  lemma HitIsNotScopeError(s: Ledger, tenant: string, reference: string, key: string, digest: Digest)
    requires CachedReversal(s, tenant, reference, key, digest).Some?
    ensures CachedReversal(s, tenant, reference, key, digest).value != Raised(WrongScope)
  {
  }

  /** Emptying the caches is noticed exactly by a command that would have hit
      them under a policy outside the original's scope. */
  lemma ErasureShowsExactlyWhen(
      s: Ledger, reference: string, date: Date, reason: string, policy: Policy, key: Option<string>)
    requires LedgerInv(s)
    ensures var commandKey := CommandKey(reference, key);
            var digest := OfReversal(policy.tenant, commandKey, reference, date, reason);
            ReverseStep(s, reference, date, reason, policy, key).reply !=
            ReverseStep(Erased(s), reference, date, reason, policy, key).reply
            <==>
            && IsCode(reason) && commandKey != ""
            && CachedReversal(s, policy.tenant, reference, commandKey, digest).Some?
            && !InScope(s, reference, policy)
  {
    var commandKey := CommandKey(reference, key);
    var digest := OfReversal(policy.tenant, commandKey, reference, date, reason);
    UncachedIgnoresCaches(s, Erased(s), reference, date, reason, policy, commandKey, digest);
    if CachedReversal(s, policy.tenant, reference, commandKey, digest).Some? {
      HitIsNotScopeError(s, policy.tenant, reference, commandKey, digest);
      CachedEqualsRebuilt(s, reference, date, reason, policy, commandKey, digest);
    }
  }

  // ------------------------------------------------- what is still standing

  /** Some journal dated by D reverses the reference. */
  predicate ReversedBy(js: seq<PostedJournal>, tenant: string, reference: string, through: Date) {
    exists r :: r in js && r.tenant == tenant && r.reversalOf == Some(reference) && r.date <= through
  }

  /** In scope, an original, and not reversed by the date. */
  function Standing(js: seq<PostedJournal>, tenant: string, entity: string, book: string,
      through: Date): PostedJournal -> bool {
    (j: PostedJournal) =>
      && j.tenant == tenant && j.entity == entity && j.book == book && j.date <= through
      && j.reversalOf.None?
      && !ReversedBy(js, tenant, j.reference, through)
  }

  /** Switching one journal off in a sum takes away its own term. */
  lemma {:induction false} SumWithout(js: seq<PostedJournal>, gone: PostedJournal, f: PostedJournal -> int,
      g: PostedJournal -> int)
    requires Built(js) && gone in js && g(gone) == 0
    requires forall j :: j in js && j != gone ==> g(j) == f(j)
    ensures Sum(js, g) == Sum(js, f) - f(gone)
  {
    var init, last := js[..|js| - 1], js[|js| - 1];
    assert forall j :: j in init ==> j in js;
    if last == gone {
      NotFound(init, gone.tenant, gone.reference);
      assert gone !in init;
      SumSame(init, f, g);
    } else {
      assert last in js && gone in init;
      SumWithout(init, gone, f, g);
    }
  }

  lemma NotYetReversed(js: seq<PostedJournal>, j: PostedJournal, through: Date)
    requires Built(js) && Find(js, j.tenant, j.reference).None?
    ensures !ReversedBy(js, j.tenant, j.reference, through)
  {
    forall r | r in js && r.tenant == j.tenant && r.reversalOf == Some(j.reference) ensures false {
      ReversalHasOriginal(js, r);
    }
  }

  lemma ReversedByAppend(js: seq<PostedJournal>, j: PostedJournal, tenant: string, reference: string, through: Date)
    ensures ReversedBy(js + [j], tenant, reference, through) <==>
            || ReversedBy(js, tenant, reference, through)
            || (j.tenant == tenant && j.reversalOf == Some(reference) && j.date <= through)
  {
    if j.tenant == tenant && j.reversalOf == Some(reference) && j.date <= through {
      assert j in js + [j];
    }
    if ReversedBy(js, tenant, reference, through) {
      var r :| r in js && r.tenant == tenant && r.reversalOf == Some(reference) && r.date <= through;
      assert r in js + [j];
    }
  }

  /** An appended original, or a journal out of scope, changes no other journal's standing. */
  lemma StandingUnmoved(
      js: seq<PostedJournal>, j: PostedJournal, tenant: string, entity: string, book: string, through: Date,
          w: Line -> int)
    requires Built(js) && Fits(js, j)
    requires j.reversalOf.None? || !InBook(tenant, entity, book, through)(j)
    ensures Sum(js, LinesOf(Standing(js + [j], tenant, entity, book, through), w)) ==
            Sum(js, LinesOf(Standing(js, tenant, entity, book, through), w))
  {
    var f, g := LinesOf(Standing(js, tenant, entity, book, through), w), LinesOf(Standing(js + [j], tenant, entity,
        book, through), w);
    forall k | k in js ensures f(k) == g(k) {
      ReversedByAppend(js, j, tenant, k.reference, through);
      assert ReversedBy(js + [j], tenant, k.reference, through) != ReversedBy(js, tenant, k.reference, through) ==>
        j.tenant == tenant && j.reversalOf == Some(k.reference) && j.date <= through;
      if k.tenant == tenant && j.tenant == tenant && j.reversalOf == Some(k.reference) {
        BuiltEach(js, k);
      }
    }
    SumSame(js, f, g);
  }

  /** The reversal reference was free, so nothing had reversed the original yet. */
  lemma NotReversedBefore(js: seq<PostedJournal>, j: PostedJournal, original: PostedJournal, through: Date)
    requires Built(js) && Fits(js, j) && j.reversalOf == Some(original.reference) && j.tenant == original.tenant
    ensures !ReversedBy(js, original.tenant, original.reference, through)
  {
    forall r | r in js && r.tenant == original.tenant && r.reversalOf == Some(original.reference) ensures false {
      BuiltEach(js, r);
    }
  }

  /** An appended reversal in scope takes exactly its original out. */
  lemma StandingReversed(
      js: seq<PostedJournal>, j: PostedJournal, tenant: string, entity: string, book: string, through: Date,
      accounts: string -> bool)
    requires Built(js) && Fits(js, j) && j.reversalOf.Some? && InBook(tenant, entity, book, through)(j)
    ensures Sum(js, LinesOf(Standing(js + [j], tenant, entity, book, through), NetIn(accounts))) ==
            Sum(js, LinesOf(Standing(js, tenant, entity, book, through), NetIn(accounts))) + Sum(j.lines,
                NetIn(accounts))
  {
    var w, original := NetIn(accounts), Find(js, tenant, j.reversalOf.value).value;
    var f, g := LinesOf(Standing(js, tenant, entity, book, through), w), LinesOf(Standing(js + [j], tenant, entity,
        book, through), w);
    OppositeNet(original.lines, accounts);
    NotReversedBefore(js, j, original, through);
    ReversedByAppend(js, j, tenant, original.reference, through);
    assert f(original) == Sum(original.lines, w) && g(original) == 0;
    forall k | k in js && k != original ensures g(k) == f(k) {
      ReversedByAppend(js, j, tenant, k.reference, through);
      if k.tenant == tenant && k.reference == original.reference {
        BuiltEach(js, k);
      }
    }
    SumWithout(js, original, f, g);
  }

  lemma OwnReferenceDiffers(reference: string)
    ensures reference + REVERSAL_SUFFIX != reference
  {
    assert |reference + REVERSAL_SUFFIX| > |reference|;
  }

  lemma {:induction false} BuiltNetIsStanding(
      js: seq<PostedJournal>, tenant: string, entity: string, book: string, through: Date, accounts: string -> bool)
    requires Built(js)
    ensures Sum(js, LinesOf(InBook(tenant, entity, book, through), NetIn(accounts))) ==
            Sum(js, LinesOf(Standing(js, tenant, entity, book, through), NetIn(accounts)))
  {
    if js != [] {
      var init, j := js[..|js| - 1], js[|js| - 1];
      assert js == init + [j];
      BuiltNetIsStanding(init, tenant, entity, book, through, accounts);
      SumAppend(init, j, LinesOf(InBook(tenant, entity, book, through), NetIn(accounts)));
      SumAppend(init, j, LinesOf(Standing(js, tenant, entity, book, through), NetIn(accounts)));
      if j.reversalOf.Some? && InBook(tenant, entity, book, through)(j) {
        StandingReversed(init, j, tenant, entity, book, through, accounts);
      } else {
        StandingUnmoved(init, j, tenant, entity, book, through, NetIn(accounts));
        if InBook(tenant, entity, book, through)(j) {
          NotYetReversed(init, j, through);
          ReversedByAppend(init, j, tenant, j.reference, through);
          OwnReferenceDiffers(j.reference);
        }
      }
    }
  }

  lemma NetOfSides(js: seq<PostedJournal>, sel: PostedJournal -> bool, accounts: string -> bool)
    ensures Sum(js, LinesOf(sel, NetIn(accounts))) ==
            Sum(js, LinesOf(sel, LineIn(Cr, accounts))) - Sum(js, LinesOf(sel, LineIn(Dr, accounts)))
  {
    forall j | j in js
      ensures LinesOf(sel, LineIn(Cr, accounts))(j) ==
              LinesOf(sel, NetIn(accounts))(j) + LinesOf(sel, LineIn(Dr, accounts))(j)
    {
      SumAdds(j.lines, NetIn(accounts), LineIn(Dr, accounts), LineIn(Cr, accounts));
    }
    SumAdds(js, LinesOf(sel, NetIn(accounts)), LinesOf(sel, LineIn(Dr, accounts)), LinesOf(sel, LineIn(Cr, accounts)));
  }

  /** The trial balance is what is still standing: in every reachable ledger, on
      every date, each account nets to the originals dated by then that no journal
      dated by then reverses; and over all accounts debits equal credits. */
  lemma TrialBalanceIsWhatStands(
      commands: seq<Command>, tenant: string, entity: string, book: string, through: Date, code: string)
    requires AllValid(commands)
    ensures var js, sel := Run(EmptyLedger(), commands).journals, InBook(tenant, entity, book, through);
            && SideOf(js, sel, Cr, code) - SideOf(js, sel, Dr, code) ==
               Sum(js, LinesOf(Standing(js, tenant, entity, book, through), NetIn(Only(code))))
            && Sum(js, LinesOf(sel, LineIn(Dr, Every()))) == Sum(js, LinesOf(sel, LineIn(Cr, Every())))
  {
    RunKeepsInv(commands);
    var js, sel := Run(EmptyLedger(), commands).journals, InBook(tenant, entity, book, through);
    BuiltNetIsStanding(js, tenant, entity, book, through, Only(code));
    NetOfSides(js, sel, Only(code));
    NetOfSides(js, sel, Every());
    forall j | j in js ensures LinesOf(sel, NetIn(Every()))(j) == 0 {
      BuiltEach(js, j);
    }
    SumNil(js, LinesOf(sel, NetIn(Every())));
  }

  // -------------------------------------------------------------- idempotency

  lemma NewKeyOnly(s: Ledger, p: Proposal, policy: Policy)
    ensures var t, k := PostStep(s, p, policy).ledger, (p.tenant, p.key);
            t.receipts == s.receipts || t.receipts == s.receipts[k := (Source(p.digest), ReceiptOf(p, policy))]
  {
  }

  lemma StoredIsReplayed(s: Ledger, p: Proposal, policy: Policy, digest: Digest, receipt: Receipt)
    requires LedgerInv(s) && (p.tenant, p.key) in s.receipts && s.receipts[(p.tenant, p.key)] == (digest, receipt)
    ensures PostStep(s, p, policy) ==
            Outcome(s, if Source(p.digest) == digest then Receipted(receipt) else Raised(Conflict))
  {
    assert ReceiptEntryOk(s, (p.tenant, p.key));
  }

  lemma PostKeepsReceipts(s: Ledger, p: Proposal, policy: Policy)
    requires LedgerInv(s)
    ensures forall k :: k in s.receipts ==>
              k in PostStep(s, p, policy).ledger.receipts && PostStep(s, p, policy).ledger.receipts[k] == s.receipts[k]
  {
    var k := (p.tenant, p.key);
    if k in s.receipts {
      StoredIsReplayed(s, p, policy, s.receipts[k].0, s.receipts[k].1);
    } else {
      NewKeyOnly(s, p, policy);
    }
  }

  lemma ReverseKeepsReceipts(
      s: Ledger, reference: string, date: Date, reason: string, policy: Policy, key: string, digest: Digest)
    ensures ReverseUncached(s, reference, date, reason, policy, key, digest).ledger.receipts == s.receipts
  {
  }

  lemma StepKeepsReceipts(s: Ledger, c: Command)
    requires LedgerInv(s)
    ensures forall k :: k in s.receipts ==>
              k in Step(s, c).ledger.receipts && Step(s, c).ledger.receipts[k] == s.receipts[k]
  {
    match c
    case Post(p, policy) => PostKeepsReceipts(s, p, policy);
    case Reverse(reference, date, reason, policy, key) =>
      var commandKey := CommandKey(reference, key);
      ReverseKeepsReceipts(s, reference, date, reason, policy, commandKey,
        OfReversal(policy.tenant, commandKey, reference, date, reason));
  }

  lemma {:induction false} RunKeepsReceipts(s: Ledger, later: seq<Command>)
    requires LedgerInv(s) && AllValid(later)
    ensures LedgerInv(Run(s, later))
    ensures forall k :: k in s.receipts ==> k in Run(s, later).receipts && Run(s, later).receipts[k] == s.receipts[k]
  {
    if later != [] {
      var init, c := later[..|later| - 1], later[|later| - 1];
      assert c in later && forall d :: d in init ==> d in later;
      RunKeepsReceipts(s, init);
      StepKeepsInv(Run(s, init), c);
      StepKeepsReceipts(Run(s, init), c);
    }
  }

  lemma ReceiptedIsStored(s: Ledger, p: Proposal, policy: Policy)
    requires LedgerInv(s) && PostStep(s, p, policy).reply.Receipted?
    ensures var t, k := PostStep(s, p, policy), (p.tenant, p.key);
            k in t.ledger.receipts && t.ledger.receipts[k] == (Source(p.digest), t.reply.receipt)
  {
    if (p.tenant, p.key) in s.receipts {
      assert ReceiptEntryOk(s, (p.tenant, p.key));
    }
  }

  /** Once a tenant's key and payload have been receipted, then after any further
      commands the same post, under any policy, returns the same receipt and adds
      nothing, and the same key with another payload always raises. */
  lemma PostIsIdempotentForever(
      earlier: seq<Command>, first: Proposal, policy: Policy, later: seq<Command>, again: Proposal, policyAgain: Policy)
    requires AllValid(earlier) && ValidProposal(first) && AllValid(later)
    requires PostStep(Run(EmptyLedger(), earlier), first, policy).reply.Receipted?
    requires again.tenant == first.tenant && again.key == first.key
    ensures var posted := PostStep(Run(EmptyLedger(), earlier), first, policy);
            var now := Run(posted.ledger, later);
            PostStep(now, again, policyAgain) ==
            Outcome(now, if again.digest == first.digest then posted.reply else Raised(Conflict))
  {
    var s := Run(EmptyLedger(), earlier);
    RunKeepsInv(earlier);
    PostKeepsInv(s, first, policy);
    ReceiptedIsStored(s, first, policy);
    var posted := PostStep(s, first, policy);
    RunKeepsReceipts(posted.ledger, later);
    StoredIsReplayed(Run(posted.ledger, later), again, policyAgain, Source(first.digest), posted.reply.receipt);
  }

  // ---------------------------------------------------------- tenant isolation

  function TenantOf(c: Command): string {
    match c
    case Post(p, _) => p.tenant
    case Reverse(_, _, _, policy, _) => policy.tenant
  }

  function JournalsFor(js: seq<PostedJournal>, tenant: string): seq<PostedJournal> {
    if js == [] then []
    else JournalsFor(js[..|js| - 1], tenant) + if js[|js| - 1].tenant == tenant then [js[|js| - 1]] else []
  }

  function EntriesFor<V>(m: map<(string, string), V>, tenant: string): map<(string, string), V> {
    map k | k in m && k.0 == tenant :: m[k]
  }

  /** One tenant's part of the four dictionaries. */
  function PartOf(s: Ledger, tenant: string): Ledger {
    Ledger(JournalsFor(s.journals, tenant), EntriesFor(s.receipts, tenant), EntriesFor(s.reversalReceipts, tenant),
      EntriesFor(s.evidence, tenant))
  }

  function CommandsOf(commands: seq<Command>, tenant: string): seq<Command> {
    if commands == [] then []
    else
      CommandsOf(commands[..|commands| - 1], tenant) +
      if TenantOf(commands[|commands| - 1]) == tenant then [commands[|commands| - 1]] else []
  }

  lemma {:induction false} FindInPart(js: seq<PostedJournal>, tenant: string, reference: string)
    ensures Find(JournalsFor(js, tenant), tenant, reference) == Find(js, tenant, reference)
  {
    if js != [] {
      var init, last := js[..|js| - 1], js[|js| - 1];
      FindInPart(init, tenant, reference);
      if last.tenant == tenant {
        FindAppend(JournalsFor(init, tenant), last, tenant, reference);
      } else {
        assert JournalsFor(js, tenant) == JournalsFor(init, tenant);
      }
    }
  }

  lemma PartAppend(js: seq<PostedJournal>, j: PostedJournal, tenant: string)
    ensures JournalsFor(js + [j], tenant) == JournalsFor(js, tenant) + if j.tenant == tenant then [j] else []
  {
    assert (js + [j])[..|js|] == js;
  }

  lemma EntriesUpdate<V>(m: map<(string, string), V>, k: (string, string), v: V, tenant: string)
    ensures EntriesFor(m[k := v], tenant) == if k.0 == tenant then EntriesFor(m, tenant)[k := v]
            else EntriesFor(m, tenant)
  {
  }

  lemma CachedReceiptInPart(s: Ledger, tenant: string, key: string, digest: Digest)
    ensures CachedReceipt(PartOf(s, tenant), tenant, key, digest) == CachedReceipt(s, tenant, key, digest)
  {
  }

  lemma PostedInPart(s: Ledger, p: Proposal, policy: Policy, tenant: string)
    requires AllMapped(p.lines, policy.mapping)
    ensures PartOf(WithPosted(s, p, policy), tenant) ==
            if p.tenant == tenant then WithPosted(PartOf(s, tenant), p, policy) else PartOf(s, tenant)
  {
    PartAppend(s.journals, JournalOf(p, policy), tenant);
    EntriesUpdate(s.receipts, (p.tenant, p.key), (Source(p.digest), ReceiptOf(p, policy)), tenant);
  }

  lemma PostInPart(s: Ledger, p: Proposal, policy: Policy, tenant: string)
    ensures var a, b := PostStep(s, p, policy), PostStep(PartOf(s, tenant), p, policy);
            if p.tenant == tenant then b == Outcome(PartOf(a.ledger, tenant), a.reply)
            else PartOf(a.ledger, tenant) == PartOf(s, tenant)
  {
    FindInPart(s.journals, tenant, JOURNAL_PREFIX + p.id);
    CachedReceiptInPart(s, tenant, p.key, Source(p.digest));
    if AllMapped(p.lines, policy.mapping) {
      PostedInPart(s, p, policy, tenant);
    }
  }

  lemma CachedInPart(s: Ledger, t: Ledger, tenant: string, reference: string, receipt: Receipt, key: string,
      digest: Digest, of: string)
    requires t == WithReversalCached(s, tenant, reference, receipt, key, digest)
    ensures PartOf(t, of) ==
            if tenant == of then WithReversalCached(PartOf(s, of), tenant, reference, receipt, key, digest)
                else PartOf(s, of)
  {
    EntriesUpdate(s.reversalReceipts, (tenant, reference), receipt, of);
    EntriesUpdate(s.evidence, (tenant, reference), (key, reference, digest), of);
  }

  lemma ReverseElsewhere(
      s: Ledger, reference: string, date: Date, reason: string, policy: Policy, key: string, digest: Digest,
          tenant: string)
    requires policy.tenant != tenant
    ensures PartOf(ReverseUncached(s, reference, date, reason, policy, key, digest).ledger, tenant) == PartOf(s, tenant)
  {
    var a := ReverseUncached(s, reference, date, reason, policy, key, digest);
    if a.reply.Receipted? {
      var original := Find(s.journals, policy.tenant, reference).value;
      PartAppend(s.journals, ReversalJournal(original, reference, date, reason, policy, key, digest), tenant);
      CachedInPart(s.(journals := a.ledger.journals), a.ledger, policy.tenant, reference, a.reply.receipt, key,
          digest, tenant);
    }
  }

  lemma AppendAtHome(
      s: Ledger, original: PostedJournal, reference: string, date: Date, reason: string, policy: Policy, key: string,
      digest: Digest)
    requires original.tenant == policy.tenant
    ensures var a := AppendReversal(s, original, reference, date, reason, policy, key, digest);
            AppendReversal(PartOf(s, policy.tenant), original, reference, date, reason, policy, key, digest) ==
            Outcome(PartOf(a.ledger, policy.tenant), a.reply)
  {
    var a := AppendReversal(s, original, reference, date, reason, policy, key, digest);
    PartAppend(s.journals, ReversalJournal(original, reference, date, reason, policy, key, digest), policy.tenant);
    CachedInPart(s.(journals := a.ledger.journals), a.ledger, policy.tenant, reference, a.reply.receipt, key, digest,
      policy.tenant);
  }

  lemma ReplayAtHome(s: Ledger, occupant: PostedJournal, reference: string, policy: Policy, key: string, digest: Digest)
    ensures var a := ReplayOccupant(s, occupant, reference, policy, key, digest);
            ReplayOccupant(PartOf(s, policy.tenant), occupant, reference, policy, key, digest) ==
            Outcome(PartOf(a.ledger, policy.tenant), a.reply)
  {
    var receipt := ReceiptFor(occupant);
    CachedInPart(s, WithReversalCached(s, policy.tenant, reference, receipt, key, digest), policy.tenant, reference,
      receipt, key, digest, policy.tenant);
  }

  lemma FoundAtHome(
      s: Ledger, original: PostedJournal, reference: string, date: Date, reason: string, policy: Policy, key: string,
      digest: Digest)
    requires Find(s.journals, policy.tenant, reference) == Some(original)
    requires Find(PartOf(s, policy.tenant).journals, policy.tenant, reference) == Some(original)
    ensures var a := ReverseUncached(s, reference, date, reason, policy, key, digest);
            ReverseUncached(PartOf(s, policy.tenant), reference, date, reason, policy, key, digest) ==
            Outcome(PartOf(a.ledger, policy.tenant), a.reply)
  {
    FindInPart(s.journals, policy.tenant, reference + REVERSAL_SUFFIX);
    var occupant := Find(s.journals, policy.tenant, reference + REVERSAL_SUFFIX);
    if occupant.Some? {
      ReplayAtHome(s, occupant.value, reference, policy, key, digest);
    } else {
      AppendAtHome(s, original, reference, date, reason, policy, key, digest);
    }
  }

  lemma ReverseAtHome(
      s: Ledger, reference: string, date: Date, reason: string, policy: Policy, key: string, digest: Digest)
    ensures var a := ReverseUncached(s, reference, date, reason, policy, key, digest);
            ReverseUncached(PartOf(s, policy.tenant), reference, date, reason, policy, key, digest) ==
            Outcome(PartOf(a.ledger, policy.tenant), a.reply)
  {
    FindInPart(s.journals, policy.tenant, reference);
    var found := Find(s.journals, policy.tenant, reference);
    if found.Some? {
      FoundAtHome(s, found.value, reference, date, reason, policy, key, digest);
    }
  }

  lemma CachedReversalInPart(s: Ledger, tenant: string, reference: string, key: string, digest: Digest)
    ensures CachedReversal(PartOf(s, tenant), tenant, reference, key, digest) ==
            CachedReversal(s, tenant, reference, key, digest)
  {
  }

  lemma ReverseInPart(
      s: Ledger, reference: string, date: Date, reason: string, policy: Policy, key: Option<string>, tenant: string)
    ensures var a := ReverseStep(s, reference, date, reason, policy, key);
            var b := ReverseStep(PartOf(s, tenant), reference, date, reason, policy, key);
            if policy.tenant == tenant then b == Outcome(PartOf(a.ledger, tenant), a.reply)
            else PartOf(a.ledger, tenant) == PartOf(s, tenant)
  {
    var commandKey := CommandKey(reference, key);
    var digest := OfReversal(policy.tenant, commandKey, reference, date, reason);
    if policy.tenant == tenant {
      CachedReversalInPart(s, tenant, reference, commandKey, digest);
      ReverseAtHome(s, reference, date, reason, policy, commandKey, digest);
    } else {
      ReverseElsewhere(s, reference, date, reason, policy, commandKey, digest, tenant);
    }
  }

  /** A tenant's own command sees and changes only its part; another tenant's
      command leaves that part alone. */
  lemma StepInPart(s: Ledger, c: Command, tenant: string)
    ensures var a, b := Step(s, c), Step(PartOf(s, tenant), c);
            if TenantOf(c) == tenant then b == Outcome(PartOf(a.ledger, tenant), a.reply)
            else PartOf(a.ledger, tenant) == PartOf(s, tenant)
  {
    match c
    case Post(p, policy) => PostInPart(s, p, policy, tenant);
    case Reverse(reference, date, reason, policy, key) =>
      ReverseInPart(s, reference, date, reason, policy, key, tenant);
  }

  /** After any interleaving, a tenant's journals, receipts and caches are those
      its own commands alone would have produced. */
  lemma {:induction false} TenantsAreIsolated(commands: seq<Command>, tenant: string)
    ensures PartOf(Run(EmptyLedger(), commands), tenant) == Run(EmptyLedger(), CommandsOf(commands, tenant))
  {
    if commands != [] {
      var init, c := commands[..|commands| - 1], commands[|commands| - 1];
      TenantsAreIsolated(init, tenant);
      StepInPart(Run(EmptyLedger(), init), c, tenant);
      var own := CommandsOf(init, tenant);
      if TenantOf(c) == tenant {
        assert (own + [c])[..|own|] == own;
      } else {
        assert CommandsOf(commands, tenant) == own;
      }
    }
  }

  /** The trial balance reads only the tenant's part. */
  lemma {:induction false} TrialBalanceInPart(
      js: seq<PostedJournal>, tenant: string, entity: string, book: string, through: Date, side: Side, code: string)
    ensures SideOf(js, InBook(tenant, entity, book, through), side, code) ==
            SideOf(JournalsFor(js, tenant), InBook(tenant, entity, book, through), side, code)
  {
    if js != [] {
      var init, j := js[..|js| - 1], js[|js| - 1];
      assert js == init + [j];
      TrialBalanceInPart(init, tenant, entity, book, through, side, code);
      PartAppend(init, j, tenant);
      var f := LinesOf(InBook(tenant, entity, book, through), LineIn(side, Only(code)));
      SumAppend(init, j, f);
      if j.tenant == tenant {
        SumAppend(JournalsFor(init, tenant), j, f);
      } else {
        assert JournalsFor(js, tenant) == JournalsFor(init, tenant);
      }
    }
  }
}
