/** The posting ledger as the object it is: four dictionaries, with methods that
    post, reverse and add up. */
module PostingLedgers {
  import opened Sums
  import opened JournalTables
  import opened Postings
  import opened LedgerTheorems

  // --------------------------------------------------- what the methods promise

  /** The policy is for the proposal's tenant, entity, book role and currency, which is
      also the functional one, and for its date. */
  predicate PolicyCovers(p: Proposal, policy: Policy) {
    && policy.tenant == p.tenant && policy.entity == p.entity && policy.bookRole == p.bookRole
    && policy.start <= p.date <= policy.end
    && policy.currency == p.currency && policy.functional == p.currency
  }

  /** Nothing stands against a first posting. */
  predicate MayBePosted(s: Ledger, p: Proposal, policy: Policy) {
    && PolicyCovers(p, policy) && (forall l :: l in p.lines ==> l.role in policy.mapping)
    && forall j :: j in s.journals ==> j.tenant != p.tenant || j.reference != JOURNAL_PREFIX + p.id
  }

  /** The journal of a proposal: its lines, each on the account of its role, under the
      policy's book and versions. */
  predicate IsPosting(p: Proposal, policy: Policy, j: PostedJournal) {
    && j.reference == JOURNAL_PREFIX + p.id && j.sourceId == p.id && j.digest == Source(p.digest)
    && j.tenant == p.tenant && j.entity == p.entity && j.book == policy.book && j.date == p.date
    && j.policyVersion == policy.policyVersion && j.ruleVersion == policy.ruleVersion
    && ResolvedTo(p.lines, policy.mapping, j.lines)
    && j.reversalOf.None? && j.reversalReason.None? && j.reversalKey.None?
  }

  /** The receipt is stored under the proposal's key with its journal behind it. A
      new key adds that one journal; a known key adds nothing. */
  predicate HoldsPosting(s: Ledger, t: Ledger, p: Proposal, policy: Policy, receipt: Receipt) {
    var k, found := (p.tenant, p.key), Find(t.journals, p.tenant, receipt.journal);
    && k in t.receipts && t.receipts[k] == (Source(p.digest), receipt)
    && found.Some? && found.value.digest == Source(p.digest) && Receipts(receipt, found.value)
    && t.reversalReceipts == s.reversalReceipts && t.evidence == s.evidence
    && if k in s.receipts then t == s
       else
         && t.receipts == s.receipts[k := t.receipts[k]] && t.journals == s.journals + [found.value]
         && IsPosting(p, policy, found.value)
  }

  /** The stored reversal of a command mirrors its original, and bears the command's key,
      date and reason. */
  predicate IsReversal(
    original: PostedJournal, j: PostedJournal, reference: string, date: Date, reason: string, key: string)
  {
    && j.reference == reference + REVERSAL_SUFFIX && j.reversalOf == Some(reference)
    && j.reversalKey == Some(key) && j.reversalReason == Some(reason) && j.date == date
    && j.digest == OfReversal(j.tenant, key, reference, date, reason)
    && j.tenant == original.tenant && j.entity == original.entity && j.book == original.book
    && j.sourceId == original.sourceId && Mirrored(original.lines, j.lines) && original.date <= date
  }

  /** The receipt is the one of the stored reversal; the caches hold it, and at most that
      one journal is new, under the policy's versions. */
  predicate HoldsReversal(
    s: Ledger, t: Ledger, reference: string, date: Date, reason: string, policy: Policy, key: string,
    receipt: Receipt)
  {
    var original := Find(t.journals, policy.tenant, reference);
    var reversal := Find(t.journals, policy.tenant, reference + REVERSAL_SUFFIX);
    && original.Some? && original.value.reversalOf.None?
    && reversal.Some? && IsReversal(original.value, reversal.value, reference, date, reason, key)
    && receipt == ReceiptFor(reversal.value)
    && CachedReversal(t, policy.tenant, reference, key, reversal.value.digest) == Some(Receipted(receipt))
    && (t.journals == s.journals || t.journals == s.journals + [reversal.value])
    && (t.journals != s.journals ==>
          reversal.value.policyVersion == policy.policyVersion && reversal.value.ruleVersion == policy.ruleVersion)
    && t.receipts == s.receipts
  }

  /** Posting to a sound ledger leaves it sound; a raise changes nothing; a new key
      is receipted exactly when nothing stands against it; a receipt is held. */
  ghost predicate PostsSoundly(s: Ledger, p: Proposal, policy: Policy, outcome: Outcome) {
    && (ValidProposal(p) ==> LedgerInv(outcome.ledger))
    && (outcome.reply.Raised? ==> outcome.ledger == s)
    && ((p.tenant, p.key) !in s.receipts ==> (outcome.reply.Receipted? <==> MayBePosted(s, p, policy)))
    && (outcome.reply.Receipted? ==> HoldsPosting(s, outcome.ledger, p, policy, outcome.reply.receipt))
  }

  lemma PostingIsHeld(s: Ledger, p: Proposal, policy: Policy)
    requires LedgerInv(s)
    ensures var outcome := PostStep(s, p, policy);
            && ((p.tenant, p.key) !in s.receipts ==> (outcome.reply.Receipted? <==> MayBePosted(s, p, policy)))
            && (outcome.reply.Receipted? ==> HoldsPosting(s, outcome.ledger, p, policy, outcome.reply.receipt))
  {
    NotFound(s.journals, p.tenant, JOURNAL_PREFIX + p.id);
    assert ScopeError(p, policy).None? <==> PolicyCovers(p, policy);
    if (p.tenant, p.key) in s.receipts {
      assert ReceiptEntryOk(s, (p.tenant, p.key));
    } else if MayBePosted(s, p, policy) {
      ResolvedInPlace(p.lines, policy.mapping);
      FindAppend(s.journals, JournalOf(p, policy), p.tenant, JOURNAL_PREFIX + p.id);
    }
  }

  lemma PostingIsSound(s: Ledger, p: Proposal, policy: Policy)
    requires LedgerInv(s)
    ensures PostsSoundly(s, p, policy, PostStep(s, p, policy))
  {
    PostingIsHeld(s, p, policy);
    if ValidProposal(p) {
      PostKeepsInv(s, p, policy);
    }
  }

  /** Whatever the caches answer comes from the stored reversal. */
  lemma CachedIsHeld(t: Ledger, reference: string, date: Date, reason: string, policy: Policy, key: string)
    requires LedgerInv(t)
    requires var cached := CachedReversal(t, policy.tenant, reference, key,
                             OfReversal(policy.tenant, key, reference, date, reason));
             cached.Some? && cached.value.Receipted?
    ensures var digest := OfReversal(policy.tenant, key, reference, date, reason);
            HoldsReversal(t, t, reference, date, reason, policy, key,
              CachedReversal(t, policy.tenant, reference, key, digest).value.receipt)
  {
    var j := Find(t.journals, policy.tenant, reference + REVERSAL_SUFFIX).value;
    HitIsStored(t, policy.tenant, reference, key, OfReversal(policy.tenant, key, reference, date, reason));
    ReversalHasOriginal(t.journals, j);
    OppositeIsMirrored(Find(t.journals, policy.tenant, reference).value.lines);
  }

  /** The caches answer the command with the receipt, and at most its reversal is new. */
  predicate CachedWith(
    s: Ledger, outcome: Outcome, reference: string, policy: Policy, key: string, digest: Digest)
  {
    var t := outcome.ledger;
    var reversal := Find(t.journals, policy.tenant, reference + REVERSAL_SUFFIX);
    && CachedReversal(t, policy.tenant, reference, key, digest) == Some(outcome.reply)
    && t.receipts == s.receipts
    && (t.journals == s.journals ||
        (&& reversal.Some? && t.journals == s.journals + [reversal.value]
         && reversal.value.policyVersion == policy.policyVersion && reversal.value.ruleVersion == policy.ruleVersion))
  }

  lemma ReplayIsCached(
      s: Ledger, occupant: PostedJournal, reference: string, policy: Policy, key: string, digest: Digest)
    requires LedgerInv(s) && Find(s.journals, policy.tenant, reference + REVERSAL_SUFFIX) == Some(occupant)
    requires ReplayOccupant(s, occupant, reference, policy, key, digest).reply.Receipted?
    ensures CachedWith(s, ReplayOccupant(s, occupant, reference, policy, key, digest), reference, policy, key, digest)
  {
  }

  lemma AppendIsCached(
      s: Ledger, original: PostedJournal, reference: string, date: Date, reason: string, policy: Policy, key: string,
      digest: Digest)
    requires original.tenant == policy.tenant
    ensures CachedWith(s, AppendReversal(s, original, reference, date, reason, policy, key, digest), reference, policy,
              key, digest)
  {
    FindAppend(s.journals, ReversalJournal(original, reference, date, reason, policy, key, digest), policy.tenant,
      reference + REVERSAL_SUFFIX);
  }

  lemma UncachedIsCached(
      s: Ledger, reference: string, date: Date, reason: string, policy: Policy, key: string, digest: Digest)
    requires LedgerInv(s) && ReverseUncached(s, reference, date, reason, policy, key, digest).reply.Receipted?
    ensures CachedWith(s, ReverseUncached(s, reference, date, reason, policy, key, digest), reference, policy, key,
            digest)
  {
    var original := Find(s.journals, policy.tenant, reference).value;
    var occupant := Find(s.journals, policy.tenant, reference + REVERSAL_SUFFIX);
    if occupant.Some? {
      ReplayIsCached(s, occupant.value, reference, policy, key, digest);
    } else {
      AppendIsCached(s, original, reference, date, reason, policy, key, digest);
    }
  }

  lemma ReversalIsCached(s: Ledger, reference: string, date: Date, reason: string, policy: Policy, key: Option<string>)
    requires LedgerInv(s) && ReverseStep(s, reference, date, reason, policy, key).reply.Receipted?
    ensures var commandKey := CommandKey(reference, key);
            CachedWith(s, ReverseStep(s, reference, date, reason, policy, key), reference, policy, commandKey,
              OfReversal(policy.tenant, commandKey, reference, date, reason))
  {
    var commandKey := CommandKey(reference, key);
    var digest := OfReversal(policy.tenant, commandKey, reference, date, reason);
    if CachedReversal(s, policy.tenant, reference, commandKey, digest).None? {
      UncachedIsCached(s, reference, date, reason, policy, commandKey, digest);
    }
  }

  /** The policy is for the entity and the book of the journal. */
  predicate PolicyFits(policy: Policy, j: PostedJournal) {
    policy.entity == j.entity && policy.book == j.book
  }

  /** A reversal that is stored already answers its own command again, under a policy in
      the original's scope or while the caches hold it; one that is not may be stored. */
  predicate MayBeReversed(s: Ledger, reference: string, date: Date, reason: string, policy: Policy, key: string) {
    var original := Find(s.journals, policy.tenant, reference);
    var reversal := Find(s.journals, policy.tenant, reference + REVERSAL_SUFFIX);
    && IsCode(reason) && key != "" && original.Some? && original.value.reversalOf.None?
    && if reversal.Some?
       then
         && IsReversal(original.value, reversal.value, reference, date, reason, key)
         && (PolicyFits(policy, original.value) || (policy.tenant, reference) in s.reversalReceipts)
       else
         PolicyFits(policy, original.value) && original.value.date <= date && policy.start <= date <= policy.end
  }

  /** Reversing in a sound ledger leaves it sound; a raise changes nothing; the command is
      receipted exactly when nothing stands against it, and a receipt is held. */
  ghost predicate ReversesSoundly(
    s: Ledger, reference: string, date: Date, reason: string, policy: Policy, key: string, outcome: Outcome)
  {
    && LedgerInv(outcome.ledger)
    && (outcome.reply.Raised? ==> outcome.ledger == s)
    && (outcome.reply.Receipted? <==> MayBeReversed(s, reference, date, reason, policy, key))
    && (outcome.reply.Receipted? ==>
          HoldsReversal(s, outcome.ledger, reference, date, reason, policy, key, outcome.reply.receipt))
  }

  lemma CachedReverses(
      s: Ledger, outcome: Outcome, reference: string, date: Date, reason: string, policy: Policy, key: string)
    requires LedgerInv(outcome.ledger) && outcome.reply.Receipted?
    requires CachedWith(s, outcome, reference, policy, key, OfReversal(policy.tenant, key, reference, date, reason))
    ensures HoldsReversal(s, outcome.ledger, reference, date, reason, policy, key, outcome.reply.receipt)
  {
    CachedIsHeld(outcome.ledger, reference, date, reason, policy, key);
  }

  /** The reversal stored for an original answers exactly the command it was made by. */
  lemma StoredIsReversal(s: Ledger, tenant: string, reference: string, date: Date, reason: string, key: string)
    requires LedgerInv(s)
    requires Find(s.journals, tenant, reference).Some? && Find(s.journals, tenant, reference).value.reversalOf.None?
    requires Find(s.journals, tenant, reference + REVERSAL_SUFFIX).Some?
    ensures var original := Find(s.journals, tenant, reference).value;
            var j := Find(s.journals, tenant, reference + REVERSAL_SUFFIX).value;
            && j.reversalOf == Some(reference) && BearsItsCommand(j)
            && (IsReversal(original, j, reference, date, reason, key) <==>
                  j.reversalKey == Some(key) && j.digest == OfReversal(tenant, key, reference, date, reason))
  {
    var j := Find(s.journals, tenant, reference + REVERSAL_SUFFIX).value;
    OccupantIsItsReversal(s, tenant, reference);
    BuiltEach(s.journals, j);
    ReversalHasOriginal(s.journals, j);
    OppositeIsMirrored(Find(s.journals, tenant, reference).value.lines);
  }

  lemma UncachedExactlyWhen(s: Ledger, reference: string, date: Date, reason: string, policy: Policy, key: string)
    requires LedgerInv(s) && IsCode(reason) && key != ""
    ensures var digest := OfReversal(policy.tenant, key, reference, date, reason);
            var original := Find(s.journals, policy.tenant, reference);
            ReverseUncached(s, reference, date, reason, policy, key, digest).reply.Receipted? <==>
            && MayBeReversed(s, reference, date, reason, policy, key)
            && PolicyFits(policy, original.value)
  {
    var original := Find(s.journals, policy.tenant, reference);
    if original.Some? && original.value.reversalOf.None? {
      if Find(s.journals, policy.tenant, reference + REVERSAL_SUFFIX).Some? {
        StoredIsReversal(s, policy.tenant, reference, date, reason, key);
      }
    }
  }

  lemma CachedExactlyWhen(s: Ledger, reference: string, date: Date, reason: string, policy: Policy, key: string)
    requires LedgerInv(s) && IsCode(reason) && key != ""
    ensures var digest := OfReversal(policy.tenant, key, reference, date, reason);
            var cached := CachedReversal(s, policy.tenant, reference, key, digest);
            if cached.Some? then cached.value.Receipted? <==> MayBeReversed(s, reference, date, reason, policy, key)
            else MayBeReversed(s, reference, date, reason, policy, key) ==>
                   PolicyFits(policy, Find(s.journals, policy.tenant, reference).value)
  {
    var digest := OfReversal(policy.tenant, key, reference, date, reason);
    if (policy.tenant, reference) in s.reversalReceipts {
      assert CacheEntryOk(s, (policy.tenant, reference));
      ReversalHasOriginal(s.journals, Find(s.journals, policy.tenant, reference + REVERSAL_SUFFIX).value);
      StoredIsReversal(s, policy.tenant, reference, date, reason, key);
    }
  }

  lemma ReversedExactlyWhen(
      s: Ledger, reference: string, date: Date, reason: string, policy: Policy, key: Option<string>)
    requires LedgerInv(s)
    ensures ReverseStep(s, reference, date, reason, policy, key).reply.Receipted? <==>
            MayBeReversed(s, reference, date, reason, policy, CommandKey(reference, key))
  {
    var commandKey := CommandKey(reference, key);
    if IsCode(reason) && commandKey != "" {
      CachedExactlyWhen(s, reference, date, reason, policy, commandKey);
      UncachedExactlyWhen(s, reference, date, reason, policy, commandKey);
    }
  }

  /** ... under the given key, or without one under a key written from the reference. */
  lemma ReversalIsSound(s: Ledger, reference: string, date: Date, reason: string, policy: Policy, key: Option<string>)
    requires LedgerInv(s)
    ensures ReversesSoundly(s, reference, date, reason, policy,
              if key.Some? then key.value else "reversal:" + reference,
              ReverseStep(s, reference, date, reason, policy, key))
  {
    var c := LedgerTheorems.Reverse(reference, date, reason, policy, key);
    StepKeepsInv(s, c);
    ReversedExactlyWhen(s, reference, date, reason, policy, key);
    if Step(s, c).reply.Raised? {
      RaiseChangesNothing(s, c);
    } else {
      ReversalIsCached(s, reference, date, reason, policy, key);
      CachedReverses(s, Step(s, c), reference, date, reason, policy, CommandKey(reference, key));
    }
  }

  // -------------------------------------------------- what the errors say is so

  predicate SaysOfPost(s: Ledger, p: Proposal, policy: Policy, error: Error) {
    match error
    case WrongTenant => policy.tenant != p.tenant
    case WrongEntity => policy.entity != p.entity
    case WrongBookRole => policy.bookRole != p.bookRole
    case ClosedPeriod => !(policy.start <= p.date <= policy.end)
    case WrongCurrency => policy.currency != p.currency
    case ForeignExchange => policy.functional != policy.currency
    case RoleNotMapped => exists l :: l in p.lines && l.role !in policy.mapping
    case Immutable => exists j :: j in s.journals && j.tenant == p.tenant && j.reference == JOURNAL_PREFIX + p.id
    case Conflict => (p.tenant, p.key) in s.receipts && s.receipts[(p.tenant, p.key)].0 != Source(p.digest)
    case _ => false
  }

  /** The foreign-occupant error is never raised in a sound ledger. */
  predicate SaysOfReversal(
    s: Ledger, reference: string, date: Date, reason: string, policy: Policy, key: string, error: Error)
  {
    var original := Find(s.journals, policy.tenant, reference);
    var reversal := Find(s.journals, policy.tenant, reference + REVERSAL_SUFFIX);
    match error
    case BadReason => !IsCode(reason)
    case EmptyKey => key == ""
    case NoSuchJournal => forall j :: j in s.journals ==> j.tenant != policy.tenant || j.reference != reference
    case NotReversible => original.Some? && original.value.reversalOf.Some?
    case WrongScope => original.Some? && !PolicyFits(policy, original.value)
    case AlreadyReversed => reversal.Some? && reversal.value.reversalKey != Some(key)
    case Conflict =>
      && reversal.Some? && reversal.value.reversalKey == Some(key)
      && (reversal.value.date != date || reversal.value.reversalReason != Some(reason))
    case BeforeOriginal => original.Some? && date < original.value.date
    case OutsidePolicy => !(policy.start <= date <= policy.end)
    case _ => false
  }

  lemma PostErrorsAreTrue(s: Ledger, p: Proposal, policy: Policy)
    requires PostStep(s, p, policy).reply.Raised?
    ensures SaysOfPost(s, p, policy, PostStep(s, p, policy).reply.error)
  {
  }

  lemma CachedErrorsAreTrue(s: Ledger, reference: string, date: Date, reason: string, policy: Policy, key: string)
    requires LedgerInv(s)
    requires var cached := CachedReversal(s, policy.tenant, reference, key,
                             OfReversal(policy.tenant, key, reference, date, reason));
             cached.Some? && cached.value.Raised?
    ensures SaysOfReversal(s, reference, date, reason, policy, key,
              CachedReversal(s, policy.tenant, reference, key,
                OfReversal(policy.tenant, key, reference, date, reason)).value.error)
  {
    HitIsStored(s, policy.tenant, reference, key, OfReversal(policy.tenant, key, reference, date, reason));
  }

  lemma UncachedErrorsAreTrue(s: Ledger, reference: string, date: Date, reason: string, policy: Policy, key: string)
    requires LedgerInv(s)
    requires ReverseUncached(s, reference, date, reason, policy, key,
               OfReversal(policy.tenant, key, reference, date, reason)).reply.Raised?
    ensures SaysOfReversal(s, reference, date, reason, policy, key,
              ReverseUncached(s, reference, date, reason, policy, key,
                OfReversal(policy.tenant, key, reference, date, reason)).reply.error)
  {
    NotFound(s.journals, policy.tenant, reference);
    var original := Find(s.journals, policy.tenant, reference);
    if original.Some? && original.value.reversalOf.None? {
      if Find(s.journals, policy.tenant, reference + REVERSAL_SUFFIX).Some? {
        StoredIsReversal(s, policy.tenant, reference, date, reason, key);
      }
    }
  }

  /** What a command that raises is told is so. */
  lemma ErrorsAreTrue(s: Ledger, reference: string, date: Date, reason: string, policy: Policy, key: Option<string>)
    requires LedgerInv(s) && ReverseStep(s, reference, date, reason, policy, key).reply.Raised?
    ensures SaysOfReversal(s, reference, date, reason, policy, CommandKey(reference, key),
              ReverseStep(s, reference, date, reason, policy, key).reply.error)
  {
    var commandKey := CommandKey(reference, key);
    var digest := OfReversal(policy.tenant, commandKey, reference, date, reason);
    if IsCode(reason) && commandKey != "" {
      if CachedReversal(s, policy.tenant, reference, commandKey, digest).Some? {
        CachedErrorsAreTrue(s, reference, date, reason, policy, commandKey);
      } else {
        UncachedErrorsAreTrue(s, reference, date, reason, policy, commandKey);
      }
    }
  }

  lemma UncachedAppends(
      s: Ledger, reference: string, date: Date, reason: string, policy: Policy, key: string, digest: Digest)
    requires ReverseUncached(s, reference, date, reason, policy, key, digest).ledger.journals != s.journals
    ensures var original := Find(s.journals, policy.tenant, reference);
            && original.Some?
            && ReverseUncached(s, reference, date, reason, policy, key, digest).ledger.journals ==
               s.journals + [ReversalJournal(original.value, reference, date, reason, policy, key, digest)]
  {
  }

  lemma ReversalSums(
      js: seq<PostedJournal>, original: PostedJournal, j: PostedJournal, sel: PostedJournal -> bool,
      accounts: string -> bool)
    requires j.lines == Opposite(original.lines)
    ensures Sum(js + [j], LinesOf(sel, NetIn(accounts))) ==
            Sum(js, LinesOf(sel, NetIn(accounts))) - if sel(j) then Sum(original.lines, NetIn(accounts)) else 0
  {
    SumAppend(js, j, LinesOf(sel, NetIn(accounts)));
    OppositeNet(original.lines, accounts);
  }

  /** A new reversal takes its original back, on every set of accounts of its book, from
      the command's date on and not before; every other book is untouched. */
  lemma ReversalTakesItsOriginalBack(
      s: Ledger, reference: string, date: Date, reason: string, policy: Policy, key: Option<string>,
      entity: string, book: string, through: Date, accounts: string -> bool)
    requires ReverseStep(s, reference, date, reason, policy, key).ledger.journals != s.journals
    ensures Find(s.journals, policy.tenant, reference).Some?
    ensures var original := Find(s.journals, policy.tenant, reference).value;
            var now := ReverseStep(s, reference, date, reason, policy, key).ledger.journals;
            var sel := InBook(policy.tenant, entity, book, through);
            Sum(now, LinesOf(sel, NetIn(accounts))) ==
            Sum(s.journals, LinesOf(sel, NetIn(accounts))) -
            if date <= through && original.entity == entity && original.book == book
            then Sum(original.lines, NetIn(accounts)) else 0
  {
    var commandKey := CommandKey(reference, key);
    var digest := OfReversal(policy.tenant, commandKey, reference, date, reason);
    UncachedAppends(s, reference, date, reason, policy, commandKey, digest);
    var original := Find(s.journals, policy.tenant, reference).value;
    var reversal := ReversalJournal(original, reference, date, reason, policy, commandKey, digest);
    ReversalSums(s.journals, original, reversal, InBook(policy.tenant, entity, book, through), accounts);
  }

  // ----------------------------------------------- the loop's running totals

  function PairOf(totals: map<string, (int, int)>, code: string): (int, int) {
    if code in totals then totals[code] else (0, 0)
  }

  /** ... which at one account means this. */
  ghost predicate AggregatedAt(
    totals: map<string, (int, int)>, js: seq<PostedJournal>, sel: PostedJournal -> bool, code: string)
  {
    && (code in totals <==> Touched(js, sel, code))
    && PairOf(totals, code) == (SideOf(js, sel, Dr, code), SideOf(js, sel, Cr, code))
  }

  ghost predicate Aggregated(totals: map<string, (int, int)>, js: seq<PostedJournal>, sel: PostedJournal -> bool) {
    forall code :: AggregatedAt(totals, js, sel, code)
  }

  ghost predicate PartlyAt(
    totals: map<string, (int, int)>, before: map<string, (int, int)>, lines: seq<Line>, code: string)
  {
    && (code in totals <==> code in before || exists l :: l in lines && l.account == code)
    && PairOf(totals, code) ==
       (PairOf(before, code).0 + Sum(lines, LineIn(Dr, Only(code))),
        PairOf(before, code).1 + Sum(lines, LineIn(Cr, Only(code))))
  }

  ghost predicate PartlyAggregated(totals: map<string, (int, int)>, before: map<string, (int, int)>, lines: seq<Line>) {
    forall code :: PartlyAt(totals, before, lines, code)
  }

  lemma AccountsAppend(lines: seq<Line>, l: Line, code: string)
    ensures (exists x :: x in lines + [l] && x.account == code) <==>
            (exists x :: x in lines && x.account == code) || l.account == code
  {
    if exists x :: x in lines && x.account == code {
      var x :| x in lines && x.account == code;
      assert x in lines + [l];
    }
    assert l in lines + [l];
  }

  function WithLine(totals: map<string, (int, int)>, l: Line): map<string, (int, int)> {
    totals[l.account := (PairOf(totals, l.account).0 + l.debit, PairOf(totals, l.account).1 + l.credit)]
  }

  lemma AddOneLineAt(
      totals: map<string, (int, int)>, before: map<string, (int, int)>, lines: seq<Line>, l: Line, code: string)
    requires PartlyAt(totals, before, lines, code)
    ensures PartlyAt(WithLine(totals, l), before, lines + [l], code)
  {
    SumAppend(lines, l, LineIn(Dr, Only(code)));
    SumAppend(lines, l, LineIn(Cr, Only(code)));
    AccountsAppend(lines, l, code);
  }

  lemma AddOneLine(totals: map<string, (int, int)>, before: map<string, (int, int)>, lines: seq<Line>, l: Line)
    requires PartlyAggregated(totals, before, lines)
    ensures PartlyAggregated(WithLine(totals, l), before, lines + [l])
  {
    forall code ensures PartlyAt(WithLine(totals, l), before, lines + [l], code) {
      assert PartlyAt(totals, before, lines, code);
      AddOneLineAt(totals, before, lines, l, code);
    }
  }

  lemma TouchedAppend(done: seq<PostedJournal>, j: PostedJournal, sel: PostedJournal -> bool, code: string)
    ensures Touched(done + [j], sel, code) <==>
            Touched(done, sel, code) || (sel(j) && exists l :: l in j.lines && l.account == code)
  {
    if Touched(done, sel, code) {
      var k, l :| k in done && sel(k) && l in k.lines && l.account == code;
      assert k in done + [j];
    }
    if sel(j) && exists l :: l in j.lines && l.account == code {
      assert j in done + [j];
    }
  }

  lemma LinesAdded(
      totals: map<string, (int, int)>, before: map<string, (int, int)>, done: seq<PostedJournal>, j: PostedJournal,
      sel: PostedJournal -> bool)
    requires sel(j) && Aggregated(before, done, sel) && PartlyAggregated(totals, before, j.lines)
    ensures Aggregated(totals, done + [j], sel)
  {
    forall code ensures AggregatedAt(totals, done + [j], sel, code) {
      assert AggregatedAt(before, done, sel, code) && PartlyAt(totals, before, j.lines, code);
      SumAppend(done, j, LinesOf(sel, LineIn(Dr, Only(code))));
      SumAppend(done, j, LinesOf(sel, LineIn(Cr, Only(code))));
      TouchedAppend(done, j, sel, code);
    }
  }

  lemma SkipJournal(totals: map<string, (int, int)>, done: seq<PostedJournal>, j: PostedJournal,
      sel: PostedJournal -> bool)
    requires !sel(j) && Aggregated(totals, done, sel)
    ensures Aggregated(totals, done + [j], sel)
  {
    forall code ensures AggregatedAt(totals, done + [j], sel, code) {
      assert AggregatedAt(totals, done, sel, code);
      SumAppend(done, j, LinesOf(sel, LineIn(Dr, Only(code))));
      SumAppend(done, j, LinesOf(sel, LineIn(Cr, Only(code))));
      TouchedAppend(done, j, sel, code);
    }
  }

  // ------------------------------------------------------------------- the object

  class PostingLedger {
    var journals: seq<PostedJournal>
    var receiptsByIdempotency: map<(string, string), (Digest, Receipt)>
    var reversalReceipts: map<(string, string), Receipt>
    var reversalCommandEvidence: map<(string, string), (string, string, Digest)>

    function View(): Ledger
      reads this
    {
      Ledger(journals, receiptsByIdempotency, reversalReceipts, reversalCommandEvidence)
    }

    constructor ()
      ensures View() == EmptyLedger()
    {
      journals, receiptsByIdempotency, reversalReceipts, reversalCommandEvidence := [], map[], map[], map[];
    }

    method Post(p: Proposal, policy: Policy) returns (reply: Reply)
      modifies this`journals, this`receiptsByIdempotency
      ensures View() == PostStep(old(View()), p, policy).ledger && reply == PostStep(old(View()), p, policy).reply
      ensures LedgerInv(old(View())) ==> PostsSoundly(old(View()), p, policy, Outcome(View(), reply))
    {
      if LedgerInv(View()) {
        PostingIsSound(View(), p, policy);
      }
      var cached := CachedReceipt(View(), p.tenant, p.key, Source(p.digest));
      if cached.Some? {
        return cached.value;
      }
      var error := ScopeError(p, policy);
      if error.Some? {
        return Raised(error.value);
      }
      if !AllMapped(p.lines, policy.mapping) {
        return Raised(RoleNotMapped);
      }
      var lines := Resolved(p.lines, policy.mapping);
      var reference := JOURNAL_PREFIX + p.id;
      if Find(journals, p.tenant, reference).Some? {
        return Raised(Immutable);
      }
      var journal := PostedJournal(reference, p.tenant, p.entity, policy.book, p.date, p.id, Source(p.digest),
        policy.policyVersion, policy.ruleVersion, lines, None, None, None);
      var receipt := Receipt(RECEIPT_PREFIX + p.id, reference, p.id, Source(p.digest), p.tenant, p.entity, policy.book,
        policy.policyVersion, policy.ruleVersion, |lines|, None);
      journals := journals + [journal];
      receiptsByIdempotency := receiptsByIdempotency[(p.tenant, p.key) := (Source(p.digest), receipt)];
      return Receipted(receipt);
    }

    method Remember(tenant: string, reference: string, receipt: Receipt, key: string, digest: Digest)
      modifies this`reversalReceipts, this`reversalCommandEvidence
      ensures View() == WithReversalCached(old(View()), tenant, reference, receipt, key, digest)
    {
      reversalReceipts := reversalReceipts[(tenant, reference) := receipt];
      reversalCommandEvidence := reversalCommandEvidence[(tenant, reference) := (key, reference, digest)];
    }

    method Reverse(reference: string, date: Date, reason: string, policy: Policy, key: Option<string>)
        returns (reply: Reply)
      modifies this`journals, this`reversalReceipts, this`reversalCommandEvidence
      ensures View() == ReverseStep(old(View()), reference, date, reason, policy, key).ledger
      ensures reply == ReverseStep(old(View()), reference, date, reason, policy, key).reply
      ensures LedgerInv(old(View())) ==>
                ReversesSoundly(old(View()), reference, date, reason, policy,
                  if key.Some? then key.value else "reversal:" + reference, Outcome(View(), reply))
    {
      ghost var promised := ReverseStep(View(), reference, date, reason, policy, key);
      assert LedgerInv(View()) ==>
               ReversesSoundly(View(), reference, date, reason, policy,
                 if key.Some? then key.value else "reversal:" + reference, promised) by {
        if LedgerInv(View()) {
          ReversalIsSound(View(), reference, date, reason, policy, key);
        }
      }
      if !IsCode(reason) {
        return Raised(BadReason);
      }
      var commandKey := CommandKey(reference, key);
      if commandKey == "" {
        return Raised(EmptyKey);
      }
      var digest := OfReversal(policy.tenant, commandKey, reference, date, reason);
      var cached := CachedReversal(View(), policy.tenant, reference, commandKey, digest);
      if cached.Some? {
        return cached.value;
      }
      var found := Find(journals, policy.tenant, reference);
      if found.None? {
        return Raised(NoSuchJournal);
      }
      var original := found.value;
      if original.reversalOf.Some? {
        return Raised(NotReversible);
      }
      if original.entity != policy.entity || original.book != policy.book {
        return Raised(WrongScope);
      }
      var receipt: Receipt;
      var occupant := Find(journals, original.tenant, reference + REVERSAL_SUFFIX);
      if occupant.Some? {
        if occupant.value.reversalOf != Some(reference) {
          return Raised(Immutable);
        }
        if occupant.value.reversalKey != Some(commandKey) {
          return Raised(AlreadyReversed);
        }
        if occupant.value.digest != digest {
          return Raised(Conflict);
        }
        receipt := ReceiptFor(occupant.value);
      } else {
        if date < original.date {
          return Raised(BeforeOriginal);
        }
        if !Permits(policy, date) {
          return Raised(OutsidePolicy);
        }
        var reversal := ReversalJournal(original, reference, date, reason, policy, commandKey, digest);
        receipt := Receipt(reversal.reference + ":receipt", reversal.reference, original.sourceId, digest,
          original.tenant, original.entity, original.book, policy.policyVersion, policy.ruleVersion,
          |reversal.lines|, Some(reference));
        journals := journals + [reversal];
      }
      Remember(policy.tenant, reference, receipt, commandKey, digest);
      return Receipted(receipt);
    }

    method AddLines(before: map<string, (int, int)>, ghost done: seq<PostedJournal>, j: PostedJournal,
        ghost sel: PostedJournal -> bool)
      returns (totals: map<string, (int, int)>)
      requires sel(j) && Aggregated(before, done, sel)
      ensures Aggregated(totals, done + [j], sel)
    {
      totals := before;
      for k := 0 to |j.lines|
        invariant PartlyAggregated(totals, before, j.lines[..k])
      {
        var l := j.lines[k];
        assert j.lines[..k] + [l] == j.lines[..k + 1];
        AddOneLine(totals, before, j.lines[..k], l);
        var pair := PairOf(totals, l.account);
        totals := totals[l.account := (pair.0 + l.debit, pair.1 + l.credit)];
      }
      assert j.lines[..|j.lines|] == j.lines;
      LinesAdded(totals, before, done, j, sel);
    }

    /** The double loop: every line of every journal in scope is added to the
        running pair of its account. */
    method TrialBalance(tenant: string, entity: string, book: string, through: Date)
      returns (totals: map<string, (int, int)>)
      ensures forall code :: code in totals <==> Touched(journals, InBook(tenant, entity, book, through), code)
      ensures forall code :: code in totals ==>
                totals[code] == (SideOf(journals, InBook(tenant, entity, book, through), Dr, code),
                                 SideOf(journals, InBook(tenant, entity, book, through), Cr, code))
    {
      totals := map[];
      var sel := InBook(tenant, entity, book, through);
      for n := 0 to |journals|
        invariant Aggregated(totals, journals[..n], sel)
      {
        var j := journals[n];
        assert journals[..n] + [j] == journals[..n + 1];
        if !sel(j) {
          SkipJournal(totals, journals[..n], j, sel);
          continue;
        }
        totals := AddLines(totals, journals[..n], j, sel);
      }
      assert journals[..|journals|] == journals;
      forall code
        ensures code in totals <==> Touched(journals, sel, code)
        ensures PairOf(totals, code) == (SideOf(journals, sel, Dr, code), SideOf(journals, sel, Cr, code))
      {
        assert AggregatedAt(totals, journals, sel, code);
      }
    }
  }
}
