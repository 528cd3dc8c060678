/**
 * What the numbers that block a purge count, record by record and in the terms of the records
 * themselves: statuses, dates and retention rules.
 */
module PurgeMeaning {
  import opened Wrappers
  import opened Calendar
  import opened PurgeBlockers

  // ── Retention periods ─────────────────────────────────────────────────────

  /** `years` is what the first rule of this scope and code says. */
  ghost predicate RuleSays(rules: seq<Rule>, scope: string, code: string, years: nat) {
    exists i | 0 <= i < |rules| :: rules[i] == Rule(scope, code, years)
      && forall j | 0 <= j < i :: rules[j].scope != scope || rules[j].code != code
  }

  predicate NoRule(rules: seq<Rule>, scope: string, code: string) {
    forall i | 0 <= i < |rules| :: rules[i].scope != scope || rules[i].code != code
  }

  /** The rule of the type if there is one, or else of the category, or else seven years for what belongs to a loan and five for the rest. */
  lemma YearsExactly(rules: seq<Rule>, category: string, typeCode: string)
    ensures var years := RetentionYears(rules, category, typeCode);
            || RuleSays(rules, "TYPE", typeCode, years)
            || (NoRule(rules, "TYPE", typeCode) && RuleSays(rules, "CATEGORY", category, years))
            || (NoRule(rules, "TYPE", typeCode) && NoRule(rules, "CATEGORY", category)
                && years == if category in {"LOAN", "COLLATERAL", "AGREEMENT", "GENERATED"} then 7 else 5)
  {
    FindRuleIsFirst(rules, "TYPE", typeCode);
    FindRuleIsFirst(rules, "CATEGORY", category);
  }

  /** The day `years` after `d`, or the last of its month if there is no such day, is still to come. */
  predicate Ahead(d: Day, years: nat, today: Day) {
    var y := d.year + years;
    var last := DaysInMonth(y, d.month);
    || today.year < y
    || (today.year == y && (today.month < d.month || (today.month == d.month && today.day < (if d.day > last then last else d.day))))
  }

  lemma AheadIs(d: Day, years: nat, today: Day)
    ensures StillKept(Some(AddYears(d, years)), today) <==> Ahead(d, years, today)
  {
    TextOrderIsDayOrder(today, AddYears(d, years));
  }

  /** The later of two days is ahead as long as either is. */
  lemma LaterAhead(d: Day, e: Day, years: nat, today: Day)
    requires !Precedes(d, e)
    ensures Ahead(e, years, today) ==> Ahead(d, years, today)
  {
  }

  // ── Customers ─────────────────────────────────────────────────────────────

  /** An application under way, or a loan not closed. */
  ghost predicate StillOpen(r: Records, c: CustomerId) {
    || (exists a | a in r.applications :: a.borrower == c && a.status in {"DRAFT", "SUBMITTED", "RECOMMENDED", "APPROVED"})
    || (exists a | a in r.accounts :: a.borrower == c && (a.status in {"BOOKED", "ACTIVE"} || a.closedAt.None?))
    || (exists l | l in r.legacy :: l.borrower == c && l.status in {"PENDING", "APPROVED", "DISBURSED", "DEFAULTED"})
  }

  lemma OpenIs(r: Records, c: CustomerId)
    ensures c in OpenCustomers(r) <==> StillOpen(r, c)
  {
  }

  /** The customer came on that day, or a loan of theirs was closed on it. */
  ghost predicate Contact(r: Records, c: CustomerId, d: Day) {
    || (exists b | b in r.borrowers :: b.id == c && b.created == d)
    || (exists a | a in r.accounts :: a.borrower == c && a.status !in {"BOOKED", "ACTIVE"} && a.closedAt == Some(d))
    || (exists l | l in r.legacy ::
          l.borrower == c && l.status !in {"PENDING", "APPROVED", "DISBURSED", "DEFAULTED"} && l.updatedAt == d)
  }

  lemma ContactIs(r: Records, c: CustomerId, d: Day)
    ensures d in EndDates(r, c) <==> Contact(r, c, d)
  {
  }

  ghost predicate AnyAhead(r: Records, c: CustomerId, years: nat, today: Day) {
    exists d :: Contact(r, c, d) && Ahead(d, years, today)
  }

  lemma EndAhead(r: Records, c: CustomerId, years: nat, today: Day)
    requires EndDates(r, c) != {}
    ensures Ahead(EndOf(r, c), years, today) <==> AnyAhead(r, c, years, today)
  {
    ContactIs(r, c, EndOf(r, c));
    if AnyAhead(r, c, years, today) {
      var d :| Contact(r, c, d) && Ahead(d, years, today);
      ContactIs(r, c, d);
      LaterAhead(EndOf(r, c), d, years, today);
    }
  }

  lemma NoEndNoContact(r: Records, c: CustomerId, years: nat, today: Day)
    requires EndDates(r, c) == {}
    ensures !AnyAhead(r, c, years, today)
  {
    if AnyAhead(r, c, years, today) {
      var d :| Contact(r, c, d) && Ahead(d, years, today);
      ContactIs(r, c, d);
    }
  }

  // ── Records ───────────────────────────────────────────────────────────────

  ghost function KeptAccounts(r: Records, today: Day): set<nat> {
    set i: nat | i < |r.accounts| && r.accounts[i].status !in {"BOOKED", "ACTIVE"} && r.accounts[i].closedAt.Some?
                 && Ahead(r.accounts[i].closedAt.value, RetentionYears(r.rules, "LOAN", ""), today)
  }

  ghost function KeptLegacy(r: Records, today: Day): set<nat> {
    set i: nat | i < |r.legacy| && r.legacy[i].status !in {"PENDING", "APPROVED", "DISBURSED", "DEFAULTED"}
                 && Ahead(r.legacy[i].updatedAt, RetentionYears(r.rules, "LOAN", ""), today)
  }

  ghost function KeptBorrowers(r: Records, today: Day): set<nat> {
    set i: nat | i < |r.borrowers| && !StillOpen(r, r.borrowers[i].id)
                 && AnyAhead(r, r.borrowers[i].id, RetentionYears(r.rules, "KYC", ""), today)
  }

  ghost function KeptDocuments(r: Records, today: Day): set<nat> {
    set i: nat | i < |r.documents| && DocumentHolds(r, r.documents[i], today)
  }

  ghost predicate DocumentHolds(r: Records, d: Document, today: Day) {
    var years := RetentionYears(r.rules, d.category, d.typeCode);
    && d.status == "ACTIVE" && !d.legalHold && !StillOpen(r, d.borrower)
    && (Ahead(d.created, years, today) || AnyAhead(r, d.borrower, years, today))
  }

  lemma AccountsRetained(r: Records, today: Day)
    ensures Retained(AccountsKept(r), today) == KeptAccounts(r, today)
  {
    forall i: nat | i < |r.accounts|
      ensures i in Retained(AccountsKept(r), today) <==> i in KeptAccounts(r, today)
    {
      if r.accounts[i].closedAt.Some? {
        AheadIs(r.accounts[i].closedAt.value, RetentionYears(r.rules, "LOAN", ""), today);
      }
    }
  }

  lemma LegacyRetained(r: Records, today: Day)
    ensures Retained(LegacyLoansKept(r), today) == KeptLegacy(r, today)
  {
    forall i: nat | i < |r.legacy|
      ensures i in Retained(LegacyLoansKept(r), today) <==> i in KeptLegacy(r, today)
    {
      AheadIs(r.legacy[i].updatedAt, RetentionYears(r.rules, "LOAN", ""), today);
    }
  }

  lemma BorrowersRetained(r: Records, today: Day)
    ensures Retained(BorrowersKept(r), today) == KeptBorrowers(r, today)
  {
    forall i: nat | i < |r.borrowers|
      ensures i in Retained(BorrowersKept(r), today) <==> i in KeptBorrowers(r, today)
    {
      BorrowerRetained(r, r.borrowers[i], today);
    }
  }

  lemma BorrowerRetained(r: Records, b: Borrower, today: Day)
    requires b in r.borrowers
    ensures StillKept(BorrowerKept(r, b), today) <==>
            !StillOpen(r, b.id) && AnyAhead(r, b.id, RetentionYears(r.rules, "KYC", ""), today)
  {
    OpenIs(r, b.id);
    assert b.created in EndDates(r, b.id);
    EndAhead(r, b.id, RetentionYears(r.rules, "KYC", ""), today);
    AheadIs(EndOf(r, b.id), RetentionYears(r.rules, "KYC", ""), today);
  }

  lemma DocumentRetained(r: Records, d: Document, today: Day)
    ensures StillKept(DocumentKept(r, d), today) <==> DocumentHolds(r, d, today)
  {
    var years := RetentionYears(r.rules, d.category, d.typeCode);
    OpenIs(r, d.borrower);
    AheadIs(d.created, years, today);
    if EndDates(r, d.borrower) == {} {
      NoEndNoContact(r, d.borrower, years, today);
    } else {
      var end := EndOf(r, d.borrower);
      EndAhead(r, d.borrower, years, today);
      AheadIs(LaterOf(end, d.created), years, today);
      LaterOfIsUpper(end, d.created, end);
      LaterAhead(LaterOf(end, d.created), end, years, today);
      LaterAhead(LaterOf(end, d.created), d.created, years, today);
    }
  }

  lemma DocumentsRetained(r: Records, today: Day)
    ensures Retained(DocumentsKept(r), today) == KeptDocuments(r, today)
  {
    forall i: nat | i < |r.documents|
      ensures i in Retained(DocumentsKept(r), today) <==> i in KeptDocuments(r, today)
    {
      DocumentRetained(r, r.documents[i], today);
    }
  }

  lemma RetainedOfParts(a: seq<Option<Day>>, b: seq<Option<Day>>, today: Day)
    ensures |Retained(a + b, today)| == |Retained(a, today)| + |Retained(b, today)|
    decreases |b|
  {
    if b == [] {
      assert a + b == a;
    } else {
      var n := |b| - 1;
      assert a + b == (a + b[..n]) + [b[n]] && b == b[..n] + [b[n]];
      RetainedOfParts(a, b[..n], today);
      RetainedStep(a + b[..n], today, b[n]);
      RetainedStep(b[..n], today, b[n]);
    }
  }

  /**
   * What the numbers count: active documents under a legal hold, customers still open, and the loans,
   * customers and documents whose retention period, from the last contact with the customer or the
   * filing of the document, is not over.
   */
  lemma NumbersCount(r: Records, today: Day, b: Blockers, open: set<CustomerId>)
    requires Meaning(r, today, b) && forall c :: c in open <==> StillOpen(r, c)
    ensures b.legalHolds == |set i: nat | i < |r.documents| && r.documents[i].status == "ACTIVE" && r.documents[i].legalHold|
    ensures b.openRelationships == |open|
    ensures b.withinRetention == |KeptAccounts(r, today)| + |KeptLegacy(r, today)| + |KeptBorrowers(r, today)| + |KeptDocuments(r, today)|
  {
    forall c
      ensures c in open <==> c in OpenCustomers(r)
    {
      OpenIs(r, c);
    }
    assert open == OpenCustomers(r);
    assert (set i: nat | i < |r.documents| && r.documents[i].status == "ACTIVE" && r.documents[i].legalHold) == HeldDocuments(r.documents);
    RetainedOfParts(AccountsKept(r) + LegacyLoansKept(r) + BorrowersKept(r), DocumentsKept(r), today);
    RetainedOfParts(AccountsKept(r) + LegacyLoansKept(r), BorrowersKept(r), today);
    RetainedOfParts(AccountsKept(r), LegacyLoansKept(r), today);
    AccountsRetained(r, today);
    LegacyRetained(r, today);
    BorrowersRetained(r, today);
    DocumentsRetained(r, today);
  }

  /** Nothing is held, nobody is open, and nothing is within its retention period. */
  ghost predicate MayGo(r: Records, today: Day) {
    && (forall d | d in r.documents :: !(d.status == "ACTIVE" && d.legalHold) && !DocumentHolds(r, d, today))
    && (forall c :: !StillOpen(r, c))
    && (forall a | a in r.accounts :: a.closedAt.Some? && !Ahead(a.closedAt.value, RetentionYears(r.rules, "LOAN", ""), today))
    && (forall l | l in r.legacy :: !Ahead(l.updatedAt, RetentionYears(r.rules, "LOAN", ""), today))
    && (forall b | b in r.borrowers :: !AnyAhead(r, b.id, RetentionYears(r.rules, "KYC", ""), today))
  }

  /** A purge is allowed exactly when every record lets it. */
  lemma AllowedMeans(r: Records, today: Day)
    ensures Allowed(r, today) <==> MayGo(r, today)
  {
    AllOpenIs(r);
    RetainedNone(r, today);
    if Allowed(r, today) {
      forall a | a in r.accounts
        ensures a.closedAt.Some? && a.status !in {"BOOKED", "ACTIVE"}
      {
        assert !StillOpen(r, a.borrower);
      }
      forall l | l in r.legacy
        ensures l.status !in {"PENDING", "APPROVED", "DISBURSED", "DEFAULTED"}
      {
        assert !StillOpen(r, l.borrower);
      }
      NoneKeptMeans(r, today);
    }
    if MayGo(r, today) {
      assert KeptAccounts(r, today) == {} && KeptLegacy(r, today) == {} && KeptBorrowers(r, today) == {} && KeptDocuments(r, today) == {};
      assert HeldDocuments(r.documents) == {};
    }
  }

  lemma AllOpenIs(r: Records)
    ensures OpenCustomers(r) == {} <==> forall c :: !StillOpen(r, c)
  {
    forall c
      ensures c in OpenCustomers(r) <==> StillOpen(r, c)
    {
      OpenIs(r, c);
    }
    if exists c :: StillOpen(r, c) {
      var c :| StillOpen(r, c);
      assert c in OpenCustomers(r);
    }
  }

  lemma RetainedNone(r: Records, today: Day)
    ensures Retained(Kept(r), today) == {} <==>
            KeptAccounts(r, today) == {} && KeptLegacy(r, today) == {} && KeptBorrowers(r, today) == {} && KeptDocuments(r, today) == {}
  {
    RetainedOfParts(AccountsKept(r) + LegacyLoansKept(r) + BorrowersKept(r), DocumentsKept(r), today);
    RetainedOfParts(AccountsKept(r) + LegacyLoansKept(r), BorrowersKept(r), today);
    RetainedOfParts(AccountsKept(r), LegacyLoansKept(r), today);
    AccountsRetained(r, today);
    LegacyRetained(r, today);
    BorrowersRetained(r, today);
    DocumentsRetained(r, today);
  }

  lemma NoneKeptMeans(r: Records, today: Day)
    requires KeptAccounts(r, today) == {} && KeptLegacy(r, today) == {} && KeptBorrowers(r, today) == {} && KeptDocuments(r, today) == {}
    requires HeldDocuments(r.documents) == {} && forall c :: !StillOpen(r, c)
    requires forall a | a in r.accounts :: a.closedAt.Some? && a.status !in {"BOOKED", "ACTIVE"}
    requires forall l | l in r.legacy :: l.status !in {"PENDING", "APPROVED", "DISBURSED", "DEFAULTED"}
    ensures MayGo(r, today)
  {
    forall d | d in r.documents
      ensures !(d.status == "ACTIVE" && d.legalHold) && !DocumentHolds(r, d, today)
    {
      var i :| 0 <= i < |r.documents| && r.documents[i] == d;
      assert i !in KeptDocuments(r, today) && i !in HeldDocuments(r.documents);
    }
    forall a | a in r.accounts
      ensures !Ahead(a.closedAt.value, RetentionYears(r.rules, "LOAN", ""), today)
    {
      var i :| 0 <= i < |r.accounts| && r.accounts[i] == a;
      assert i !in KeptAccounts(r, today);
    }
    forall l | l in r.legacy
      ensures !Ahead(l.updatedAt, RetentionYears(r.rules, "LOAN", ""), today)
    {
      var i :| 0 <= i < |r.legacy| && r.legacy[i] == l;
      assert i !in KeptLegacy(r, today);
    }
    forall b | b in r.borrowers
      ensures !AnyAhead(r, b.id, RetentionYears(r.rules, "KYC", ""), today)
    {
      var i :| 0 <= i < |r.borrowers| && r.borrowers[i] == b;
      assert i !in KeptBorrowers(r, today);
    }
  }
}
