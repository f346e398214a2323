/** Deterministic bank-to-book matching: one proposal or an abstention, never an
    arbitrary pick. */
module Matching {
  import opened Sums

  datatype Direction = Crdt | Dbit

  datatype Identity = Identity(provider: Option<string>, endToEnd: Option<string>, servicer: Option<string>)

  datatype Entry = Entry(
    reference: string, identity: Identity, amount: int, currency: string, direction: Direction, bookingDate: int)

  datatype Journal = Journal(
    reference: string, identity: Identity, amount: int, currency: string, direction: Direction, date: int)

  datatype Rule = ProviderReference | EndToEndReference | ServicerReference | ExactMoneyBoundedDate

  datatype Exception =
    | NoCandidate | AmbiguousReference | CurrencyMismatch | AmountMismatch | DirectionMismatch | DateWindowMismatch

  datatype Decision = Decision(
    entry: string, isMatch: bool, rule: Option<Rule>, matched: seq<string>, amount: int,
    exception: Option<Exception>)
  {
    /** What the constructor of a decision checks. */
    predicate Valid() {
      if isMatch then |matched| == 1 && amount > 0 && exception.None?
      else matched == [] && amount == 0 && exception.Some?
    }
  }

  // -------------------------------------------------------------- the engine

  function Field(identity: Identity, rule: Rule): Option<string> {
    match rule
    case ProviderReference => identity.provider
    case EndToEndReference => identity.endToEnd
    case ServicerReference => identity.servicer
    case ExactMoneyBoundedDate => None
  }

  predicate Present(value: Option<string>) {
    value.Some? && value.value != ""
  }

  /** The first strong reference that is present; an empty one is not. */
  function StrongReference(e: Entry): Option<Rule> {
    if Present(e.identity.provider) then Some(ProviderReference)
    else if Present(e.identity.endToEnd) then Some(EndToEndReference)
    else if Present(e.identity.servicer) then Some(ServicerReference)
    else None
  }

  function Filter(cs: seq<Journal>, p: Journal -> bool): seq<Journal> {
    if cs == [] then []
    else Filter(cs[..|cs| - 1], p) + if p(cs[|cs| - 1]) then [cs[|cs| - 1]] else []
  }

  function SharesReference(e: Entry, rule: Rule): Journal -> bool {
    (c: Journal) => Field(c.identity, rule) == Field(e.identity, rule)
  }

  function SameMoney(e: Entry): Journal -> bool {
    (c: Journal) => c.currency == e.currency && c.amount == e.amount
  }

  function SameDirection(e: Entry): Journal -> bool {
    (c: Journal) => c.direction == e.direction
  }

  function InWindow(e: Entry, days: nat): Journal -> bool {
    (c: Journal) => e.bookingDate - days <= c.date <= e.bookingDate + days
  }

  function Abstain(e: Entry, why: Exception): Decision {
    Decision(e.reference, false, None, [], 0, Some(why))
  }

  function Match(e: Entry, c: Journal, rule: Rule): Decision {
    Decision(e.reference, true, Some(rule), [c.reference], e.amount, None)
  }

  function ProposeByReference(e: Entry, cs: seq<Journal>, rule: Rule): Decision {
    var found := Filter(cs, SharesReference(e, rule));
    if found == [] then Abstain(e, NoCandidate)
    else if |found| > 1 then Abstain(e, AmbiguousReference)
    else if found[0].currency != e.currency then Abstain(e, CurrencyMismatch)
    else if found[0].amount != e.amount then Abstain(e, AmountMismatch)
    else if found[0].direction != e.direction then Abstain(e, DirectionMismatch)
    else Match(e, found[0], rule)
  }

  function ProposeByMoney(e: Entry, cs: seq<Journal>, days: nat): Decision {
    var money := Filter(cs, SameMoney(e));
    var directed := Filter(money, SameDirection(e));
    var window := Filter(directed, InWindow(e, days));
    if |window| == 1 then Match(e, window[0], ExactMoneyBoundedDate)
    else if |window| > 1 then Abstain(e, AmbiguousReference)
    else if directed != [] then Abstain(e, DateWindowMismatch)
    else if money != [] then Abstain(e, DirectionMismatch)
    else Abstain(e, NoCandidate)
  }

  /** Entries with a positive amount, the only ones there are, never get a decision
      that its constructor would reject. */
  function Propose(e: Entry, cs: seq<Journal>, days: nat): (d: Decision)
    ensures e.amount > 0 ==> d.Valid()
  {
    var rule := StrongReference(e);
    if rule.Some? then ProposeByReference(e, cs, rule.value) else ProposeByMoney(e, cs, days)
  }

  // ---------------------------------------------------------------- theorems

  /** The candidates that compete under the strongest rule the entry allows. */
  function Competes(e: Entry, days: nat): Journal -> bool {
    var rule := StrongReference(e);
    if rule.Some? then SharesReference(e, rule.value)
    else (c: Journal) => SameMoney(e)(c) && SameDirection(e)(c) && InWindow(e, days)(c)
  }

  predicate Agrees(e: Entry, c: Journal) {
    c.currency == e.currency && c.amount == e.amount && c.direction == e.direction
  }

  lemma {:induction false} FilterCounts(cs: seq<Journal>, p: Journal -> bool, c: Journal)
    ensures multiset(Filter(cs, p))[c] == if p(c) then multiset(cs)[c] else 0
  {
    if cs != [] {
      FilterCounts(cs[..|cs| - 1], p, c);
      assert cs == cs[..|cs| - 1] + [cs[|cs| - 1]];
    }
  }

  lemma {:induction false} FilterTwice(cs: seq<Journal>, p: Journal -> bool, q: Journal -> bool, both: Journal -> bool)
    requires forall c :: both(c) <==> p(c) && q(c)
    ensures Filter(Filter(cs, p), q) == Filter(cs, both)
  {
    if cs != [] {
      var init, last := cs[..|cs| - 1], cs[|cs| - 1];
      FilterTwice(init, p, q, both);
      if p(last) {
        assert (Filter(init, p) + [last])[..|Filter(init, p)|] == Filter(init, p);
      } else {
        assert Filter(init, p) + [] == Filter(init, p);
      }
    }
  }

  lemma CompetingByMoney(e: Entry, cs: seq<Journal>, days: nat)
    requires StrongReference(e).None?
    ensures Filter(Filter(Filter(cs, SameMoney(e)), SameDirection(e)), InWindow(e, days)) ==
            Filter(cs, Competes(e, days))
  {
    var first := (c: Journal) => SameMoney(e)(c) && SameDirection(e)(c);
    FilterTwice(cs, SameMoney(e), SameDirection(e), first);
    FilterTwice(cs, first, InWindow(e, days), Competes(e, days));
  }

  /** In terms of the filters: a match needs one competitor that agrees. */
  lemma OneCompetes(e: Entry, cs: seq<Journal>, days: nat)
    ensures var one := Filter(cs, Competes(e, days));
            Propose(e, cs, days).isMatch <==> |one| == 1 && Agrees(e, one[0])
    ensures Propose(e, cs, days).isMatch ==>
              Propose(e, cs, days).matched == [Filter(cs, Competes(e, days))[0].reference]
  {
    var one := Filter(cs, Competes(e, days));
    if StrongReference(e).None? {
      CompetingByMoney(e, cs, days);
      if |one| == 1 {
        FilterCounts(cs, Competes(e, days), one[0]);
        assert one == [one[0]];
      }
    }
  }

  // ------------------------------------------- the rules, told without the filters

  predicate Given(reference: Option<string>) {
    reference.Some? && |reference.value| > 0
  }

  /** The rule that decides: the strongest reference the entry gives, the provider's before
      the end-to-end one before the account servicer's, and money and date without any. */
  function DecidingRule(e: Entry): Rule {
    if Given(e.identity.provider) then ProviderReference
    else if Given(e.identity.endToEnd) then EndToEndReference
    else if Given(e.identity.servicer) then ServicerReference
    else ExactMoneyBoundedDate
  }

  predicate SameAmount(e: Entry, c: Journal) {
    c.currency == e.currency && c.amount == e.amount
  }

  /** The candidate carries what the deciding rule looks at. */
  predicate Rival(e: Entry, days: nat, c: Journal) {
    match DecidingRule(e)
    case ProviderReference => c.identity.provider == e.identity.provider
    case EndToEndReference => c.identity.endToEnd == e.identity.endToEnd
    case ServicerReference => c.identity.servicer == e.identity.servicer
    case ExactMoneyBoundedDate => Agrees(e, c) && c.date - days <= e.bookingDate <= c.date + days
  }

  /** The places of the candidates that a test admits. */
  function Places(cs: seq<Journal>, p: Journal -> bool): set<nat> {
    set i: nat | i < |cs| && p(cs[i])
  }

  function Rivals(e: Entry, cs: seq<Journal>, days: nat): set<nat> {
    Places(cs, (c: Journal) => Rival(e, days, c))
  }

  /** There is one rival, and it is like this. */
  predicate LoneRivalIs(e: Entry, cs: seq<Journal>, days: nat, p: Journal -> bool) {
    |Rivals(e, cs, days)| == 1 && forall i :: i in Rivals(e, cs, days) ==> p(cs[i])
  }

  predicate SomeCandidate(cs: seq<Journal>, p: Journal -> bool) {
    exists c :: c in cs && p(c)
  }

  /** What each exception says when a reference decides; no two can be said together. */
  predicate BecauseOfReference(e: Entry, cs: seq<Journal>, days: nat, why: Exception) {
    match why
    case NoCandidate => Rivals(e, cs, days) == {}
    case AmbiguousReference => |Rivals(e, cs, days)| > 1
    case CurrencyMismatch => LoneRivalIs(e, cs, days, (c: Journal) => c.currency != e.currency)
    case AmountMismatch =>
      LoneRivalIs(e, cs, days, (c: Journal) => c.currency == e.currency && c.amount != e.amount)
    case DirectionMismatch =>
      LoneRivalIs(e, cs, days, (c: Journal) => SameAmount(e, c) && c.direction != e.direction)
    case DateWindowMismatch => false
  }

  /** ... and when money and date decide. */
  predicate BecauseOfMoney(e: Entry, cs: seq<Journal>, days: nat, why: Exception) {
    var same, agree := (c: Journal) => SameAmount(e, c), (c: Journal) => Agrees(e, c);
    match why
    case NoCandidate => !SomeCandidate(cs, same)
    case AmbiguousReference => |Rivals(e, cs, days)| > 1
    case CurrencyMismatch => false
    case AmountMismatch => false
    case DirectionMismatch => SomeCandidate(cs, same) && !SomeCandidate(cs, agree)
    case DateWindowMismatch => SomeCandidate(cs, agree) && Rivals(e, cs, days) == {}
  }

  predicate Because(e: Entry, cs: seq<Journal>, days: nat, why: Exception) {
    if DecidingRule(e) == ExactMoneyBoundedDate then BecauseOfMoney(e, cs, days, why)
    else BecauseOfReference(e, cs, days, why)
  }

  /** The whole decision: a match with the one rival when it agrees, under the deciding rule
      and for the entry's amount; otherwise an abstention that says why. */
  predicate Decides(e: Entry, cs: seq<Journal>, days: nat, d: Decision) {
    var rivals := Rivals(e, cs, days);
    if |rivals| == 1 && forall i :: i in rivals ==> Agrees(e, cs[i])
    then exists i :: i in rivals &&
           d == Decision(e.reference, true, Some(DecidingRule(e)), [cs[i].reference], e.amount, None)
    else
      && d.exception.Some? && d == Decision(e.reference, false, None, [], 0, d.exception)
      && Because(e, cs, days, d.exception.value)
  }

  lemma PlacesAppend(cs: seq<Journal>, c: Journal, p: Journal -> bool)
    ensures Places(cs + [c], p) == Places(cs, p) + if p(c) then {|cs|} else {}
  {
  }

  lemma {:induction false} FilterByPlaces(cs: seq<Journal>, p: Journal -> bool)
    ensures |Filter(cs, p)| == |Places(cs, p)|
    ensures forall c :: c in Filter(cs, p) <==> exists i :: i in Places(cs, p) && cs[i] == c
  {
    if cs != [] {
      var init, last := cs[..|cs| - 1], cs[|cs| - 1];
      assert cs == init + [last];
      FilterByPlaces(init, p);
      PlacesAppend(init, last, p);
      forall c ensures c in Filter(cs, p) <==> exists i :: i in Places(cs, p) && cs[i] == c {
        if i :| i in Places(cs, p) && cs[i] == c {
          assert i < |init| ==> i in Places(init, p) && init[i] == c;
        }
        if c in Filter(init, p) {
          var i :| i in Places(init, p) && init[i] == c;
          assert i in Places(cs, p) && cs[i] == c;
        }
        assert p(last) ==> |init| in Places(cs, p) && cs[|init|] == last;
      }
    }
  }

  lemma RuleIsTheStrongest(e: Entry)
    ensures StrongReference(e) == if DecidingRule(e) == ExactMoneyBoundedDate then None else Some(DecidingRule(e))
  {
  }

  lemma RivalsCompete(e: Entry, days: nat, c: Journal)
    ensures Competes(e, days)(c) <==> Rival(e, days, c)
  {
    RuleIsTheStrongest(e);
    if DecidingRule(e) != ExactMoneyBoundedDate {
      assert Competes(e, days) == SharesReference(e, DecidingRule(e));
    } else {
      assert Competes(e, days)(c) <==> SameMoney(e)(c) && SameDirection(e)(c) && InWindow(e, days)(c);
    }
  }

  lemma RivalsAreFiltered(e: Entry, cs: seq<Journal>, days: nat)
    ensures |Filter(cs, Competes(e, days))| == |Rivals(e, cs, days)|
    ensures forall c :: c in Filter(cs, Competes(e, days)) <==> exists i :: i in Rivals(e, cs, days) && cs[i] == c
  {
    FilterByPlaces(cs, Competes(e, days));
    forall i: nat | i < |cs| ensures Competes(e, days)(cs[i]) <==> Rival(e, days, cs[i]) {
      RivalsCompete(e, days, cs[i]);
    }
    assert Places(cs, Competes(e, days)) == Rivals(e, cs, days);
  }

  lemma LoneRival(e: Entry, cs: seq<Journal>, days: nat) returns (i: nat)
    requires |Rivals(e, cs, days)| == 1
    ensures Rivals(e, cs, days) == {i} && i < |cs| && Filter(cs, Competes(e, days)) == [cs[i]]
  {
    var rivals := Rivals(e, cs, days);
    i :| i in rivals;
    assert |rivals - {i}| == 0;
    RivalsAreFiltered(e, cs, days);
    var one := Filter(cs, Competes(e, days));
    assert one[0] in one;
  }

  lemma FilterByReference(e: Entry, cs: seq<Journal>, days: nat)
    requires DecidingRule(e) != ExactMoneyBoundedDate
    ensures Propose(e, cs, days) == ProposeByReference(e, cs, DecidingRule(e))
    ensures Filter(cs, SharesReference(e, DecidingRule(e))) == Filter(cs, Competes(e, days))
    ensures |Filter(cs, Competes(e, days))| == |Rivals(e, cs, days)|
  {
    RuleIsTheStrongest(e);
    RivalsAreFiltered(e, cs, days);
    assert Competes(e, days) == SharesReference(e, DecidingRule(e));
  }

  lemma DecidedByReference(e: Entry, cs: seq<Journal>, days: nat)
    requires DecidingRule(e) != ExactMoneyBoundedDate
    ensures Decides(e, cs, days, Propose(e, cs, days))
  {
    FilterByReference(e, cs, days);
    if |Rivals(e, cs, days)| == 1 {
      var i := LoneRival(e, cs, days);
    } else {
      assert |Rivals(e, cs, days)| == 0 ==> Rivals(e, cs, days) == {};
    }
  }

  lemma FilteredIsSome(cs: seq<Journal>, p: Journal -> bool)
    ensures Filter(cs, p) != [] <==> SomeCandidate(cs, p)
  {
    FilterByPlaces(cs, p);
    if Filter(cs, p) != [] {
      assert Filter(cs, p)[0] in Filter(cs, p);
    }
    if c :| c in cs && p(c) {
      var i :| 0 <= i < |cs| && cs[i] == c;
      assert i in Places(cs, p);
    }
  }

  /** The three filters by what they leave. */
  lemma MoneyFilters(e: Entry, cs: seq<Journal>, days: nat)
    requires DecidingRule(e) == ExactMoneyBoundedDate
    ensures var money := Filter(cs, SameMoney(e));
            var directed := Filter(money, SameDirection(e));
            && (money != [] <==> SomeCandidate(cs, (c: Journal) => SameAmount(e, c)))
            && (directed != [] <==> SomeCandidate(cs, (c: Journal) => Agrees(e, c)))
            && Filter(directed, InWindow(e, days)) == Filter(cs, Competes(e, days))
            && |Filter(cs, Competes(e, days))| == |Rivals(e, cs, days)|
  {
    var same, agree := (c: Journal) => SameAmount(e, c), (c: Journal) => Agrees(e, c);
    CompetingByMoney(e, cs, days);
    RivalsAreFiltered(e, cs, days);
    FilteredIsSome(cs, SameMoney(e));
    assert SomeCandidate(cs, SameMoney(e)) <==> SomeCandidate(cs, same) by {
      assert forall c :: SameMoney(e)(c) <==> same(c);
    }
    FilterTwice(cs, SameMoney(e), SameDirection(e), agree);
    FilteredIsSome(cs, agree);
  }

  lemma MoneyShape(e: Entry, cs: seq<Journal>, days: nat)
    requires DecidingRule(e) == ExactMoneyBoundedDate
    ensures var d, one, n := Propose(e, cs, days), Filter(cs, Competes(e, days)), |Rivals(e, cs, days)|;
            if n == 1 then |one| == 1 && d == Match(e, one[0], ExactMoneyBoundedDate)
            else if n > 1 then d == Abstain(e, AmbiguousReference)
            else if SomeCandidate(cs, (c: Journal) => Agrees(e, c)) then d == Abstain(e, DateWindowMismatch)
            else if SomeCandidate(cs, (c: Journal) => SameAmount(e, c)) then d == Abstain(e, DirectionMismatch)
            else d == Abstain(e, NoCandidate)
  {
    MoneyFilters(e, cs, days);
    assert Propose(e, cs, days) == ProposeByMoney(e, cs, days);
  }

  lemma DecidedByMoney(e: Entry, cs: seq<Journal>, days: nat)
    requires DecidingRule(e) == ExactMoneyBoundedDate
    ensures Decides(e, cs, days, Propose(e, cs, days))
  {
    MoneyShape(e, cs, days);
    if |Rivals(e, cs, days)| == 1 {
      var i := LoneRival(e, cs, days);
    } else {
      assert |Rivals(e, cs, days)| == 0 ==> Rivals(e, cs, days) == {};
    }
  }

  /** Every decision is the one the rules give: a match exactly when there is one rival and
      it agrees, and otherwise the exception that says what is wrong. */
  lemma DecisionFollowsTheRules(e: Entry, cs: seq<Journal>, days: nat)
    ensures Decides(e, cs, days, Propose(e, cs, days))
  {
    if DecidingRule(e) == ExactMoneyBoundedDate {
      DecidedByMoney(e, cs, days);
    } else {
      DecidedByReference(e, cs, days);
    }
  }

  lemma NoTwoExceptions(e: Entry, cs: seq<Journal>, days: nat, a: Exception, b: Exception)
    requires Because(e, cs, days, a) && Because(e, cs, days, b)
    ensures a == b
  {
    var rivals := Rivals(e, cs, days);
    if rivals != {} {
      var i :| i in rivals;
      assert cs[i] in cs;
      assert DecidingRule(e) == ExactMoneyBoundedDate ==>
               SomeCandidate(cs, (c: Journal) => Agrees(e, c)) && SomeCandidate(cs, (c: Journal) => SameAmount(e, c));
    }
    if c :| c in cs && Agrees(e, c) {
      assert SomeCandidate(cs, (c: Journal) => SameAmount(e, c));
    }
  }

  /** The rules leave no choice. */
  lemma RulesDecide(e: Entry, cs: seq<Journal>, days: nat, a: Decision, b: Decision)
    requires Decides(e, cs, days, a) && Decides(e, cs, days, b)
    ensures a == b
  {
    if |Rivals(e, cs, days)| == 1 && forall i :: i in Rivals(e, cs, days) ==> Agrees(e, cs[i]) {
      var i := LoneRival(e, cs, days);
    } else {
      NoTwoExceptions(e, cs, days, a.exception.value, b.exception.value);
    }
  }

  lemma SameContentsSameSize(a: seq<Journal>, b: seq<Journal>)
    requires multiset(a) == multiset(b)
    ensures |a| == |b|
  {
    assert |multiset(a)| == |a| && |multiset(b)| == |b|;
  }

  lemma LoneMemberIsShared(a: seq<Journal>, b: seq<Journal>)
    requires |a| == 1 && |b| == 1 && a[0] in multiset(b)
    ensures a == b
  {
    assert b == [b[0]];
  }

  lemma FilterIgnoresOrder(a: seq<Journal>, b: seq<Journal>, p: Journal -> bool)
    requires multiset(a) == multiset(b)
    ensures multiset(Filter(a, p)) == multiset(Filter(b, p))
    ensures |Filter(a, p)| == |Filter(b, p)|
    ensures |Filter(a, p)| == 1 ==> Filter(a, p) == Filter(b, p)
  {
    forall c ensures multiset(Filter(a, p))[c] == multiset(Filter(b, p))[c] {
      FilterCounts(a, p, c);
      FilterCounts(b, p, c);
    }
    var x, y := Filter(a, p), Filter(b, p);
    SameContentsSameSize(x, y);
    if |x| == 1 {
      assert x[0] in multiset(x);
      LoneMemberIsShared(x, y);
    }
  }

  /** The decision does not depend on the order of the candidates. */
  lemma OrderDoesNotMatter(e: Entry, a: seq<Journal>, b: seq<Journal>, days: nat)
    requires multiset(a) == multiset(b)
    ensures Propose(e, a, days) == Propose(e, b, days)
  {
    var rule := StrongReference(e);
    if rule.Some? {
      FilterIgnoresOrder(a, b, SharesReference(e, rule.value));
    } else {
      FilterIgnoresOrder(a, b, SameMoney(e));
      var x, y := Filter(a, SameMoney(e)), Filter(b, SameMoney(e));
      FilterIgnoresOrder(x, y, SameDirection(e));
      FilterIgnoresOrder(Filter(x, SameDirection(e)), Filter(y, SameDirection(e)), InWindow(e, days));
    }
  }

  lemma MoreCandidatesKeepTheOne(a: seq<Journal>, b: seq<Journal>, p: Journal -> bool)
    requires multiset(a) <= multiset(b) && |Filter(a, p)| == |Filter(b, p)| == 1
    ensures Filter(a, p) == Filter(b, p)
  {
    var x, y := Filter(a, p), Filter(b, p);
    assert x[0] in multiset(x);
    FilterCounts(a, p, x[0]);
    FilterCounts(b, p, x[0]);
    LoneMemberIsShared(x, y);
  }

  /** More candidates can turn a match into an abstention, never into another
      match. */
  lemma MoreCandidatesNeverChangeAMatch(e: Entry, a: seq<Journal>, b: seq<Journal>, days: nat)
    requires multiset(a) <= multiset(b)
    requires Propose(e, a, days).isMatch && Propose(e, b, days).isMatch
    ensures Propose(e, a, days) == Propose(e, b, days)
  {
    OneCompetes(e, a, days);
    OneCompetes(e, b, days);
    MoreCandidatesKeepTheOne(a, b, Competes(e, days));
  }

  /** A strong reference never falls through to the weaker rule. */
  lemma StrongReferenceDecides(e: Entry, cs: seq<Journal>, days: nat)
    requires StrongReference(e).Some? && Propose(e, cs, days).isMatch
    ensures Propose(e, cs, days).rule == StrongReference(e)
    ensures exists c :: c in cs && Propose(e, cs, days).matched == [c.reference]
                     && Field(c.identity, StrongReference(e).value) == Field(e.identity, StrongReference(e).value)
  {
    var one := Filter(cs, Competes(e, days));
    OneCompetes(e, cs, days);
    FilterCounts(cs, Competes(e, days), one[0]);
    assert one[0] in multiset(one);
    assert one[0] in multiset(cs) && one[0] in cs;
  }
}
