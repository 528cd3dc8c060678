/**
 * What stops an organisation from being purged: legal holds, open customer relationships, and
 * anything inside its retention period. `examples`, for the screen only, is not modelled.
 */
module PurgeBlockers {
  import opened Wrappers
  import opened Calendar

  type CustomerId = string

  /** A calendar day: a date with no time of day. */
  type Day = d: Date | ValidDate(d) && d.clock == 0 witness Date(2000, 1, 1, 0)

  datatype Rule = Rule(scope: string, code: string, years: nat)
  datatype Borrower = Borrower(id: CustomerId, created: Day)
  datatype Application = Application(borrower: CustomerId, status: string)
  datatype Account = Account(borrower: CustomerId, status: string, closedAt: Option<Day>)
  datatype LegacyLoan = LegacyLoan(borrower: CustomerId, status: string, updatedAt: Day)
  datatype Document = Document(borrower: CustomerId, status: string, category: string, typeCode: string, created: Day,
                               legalHold: bool)

  datatype Records = Records(rules: seq<Rule>, borrowers: seq<Borrower>, applications: seq<Application>,
                             accounts: seq<Account>, legacy: seq<LegacyLoan>, documents: seq<Document>)

  datatype Blockers = Blockers(legalHolds: nat, openRelationships: nat, withinRetention: nat, retainUntil: Option<Day>)

  const OPEN_APPLICATION: set<string> := {"DRAFT", "SUBMITTED", "RECOMMENDED", "APPROVED"}
  const LIVE_LOAN: set<string> := {"BOOKED", "ACTIVE"}
  const LEGACY_OPEN: set<string> := {"PENDING", "APPROVED", "DISBURSED", "DEFAULTED"}

  // ── Dates ─────────────────────────────────────────────────────────────────

  /** The order of the YYYY-MM-DD texts the code compares, see `TextOrder`. */
  predicate Precedes(a: Day, b: Day) {
    a.year < b.year || (a.year == b.year && (a.month < b.month || (a.month == b.month && a.day < b.day)))
  }

  function LaterOf(a: Day, b: Day): Day {
    if Precedes(b, a) then a else b
  }

  function LaterIfAny(a: Option<Day>, b: Day): Day {
    if a.None? then b else LaterOf(a.value, b)
  }

  /** Not yet: `today` falls on an earlier day. */
  predicate Before(today: Day, d: Day) {
    DayNumber(today) < DayNumber(d)
  }

  function AddYears(d: Day, years: nat): Day {
    var year := d.year + years;
    Date(year, d.month, Min(d.day, DaysInMonth(year, d.month)), 0)
  }

  /** Adding years is adding twelve times as many months: 29 February rolls to the 28th. */
  lemma AddYearsIsAddMonths(d: Day, years: nat)
    ensures AddYears(d, years) == AddMonthsClamped(d, 12 * years)
  {
    var t := MonthIndex(d) + 12 * years;
    assert t == 12 * (d.year + years) + (d.month - 1);
    assert YearOf(t) == d.year + years && MonthOf(t) == d.month;
  }

  lemma {:induction false} YearsGrow(y: int, z: int)
    requires y <= z
    ensures DaysBeforeYear(y) + 365 * (z - y) <= DaysBeforeYear(z)
    decreases z - y
  {
    if y < z {
      YearsGrow(y, z - 1);
      YearLength(z - 1);
    }
  }

  lemma WithinYear(d: Day)
    ensures 1 <= DaysBeforeMonth(d.year, d.month) + d.day <= (if IsLeap(d.year) then 366 else 365)
  {
  }

  /** The order of texts, by their first different characters. */
  predicate TextLess(a: string, b: string) {
    b != [] && (a == [] || a[0] < b[0] || (a[0] == b[0] && TextLess(a[1..], b[1..])))
  }

  lemma {:induction false} TextLessOfParts(a: string, b: string, c: string, d: string)
    requires |a| == |b|
    ensures TextLess(a + c, b + d) <==> TextLess(a, b) || (a == b && TextLess(c, d))
  {
    if a == [] {
      assert a + c == c && b + d == d;
    } else {
      assert (a + c)[1..] == a[1..] + c && (b + d)[1..] == b[1..] + d;
      TextLessOfParts(a[1..], b[1..], c, d);
    }
  }

  function Digit(n: int): char
    requires 0 <= n < 10
  {
    '0' + n as char
  }

  function Power(w: nat): nat {
    if w == 0 then 1 else 10 * Power(w - 1)
  }

  /** A number padded with zeros. */
  function Padded(n: nat, w: nat): (r: string)
    ensures |r| == w
  {
    if w == 0 then [] else Padded(n / 10, w - 1) + [Digit(n % 10)]
  }

  lemma {:induction false} PaddedOrder(m: nat, n: nat, w: nat)
    requires m < Power(w) && n < Power(w)
    ensures TextLess(Padded(m, w), Padded(n, w)) <==> m < n
    ensures Padded(m, w) == Padded(n, w) <==> m == n
  {
    if w > 0 {
      PaddedOrder(m / 10, n / 10, w - 1);
      var a, b, c, d := Padded(m / 10, w - 1), Padded(n / 10, w - 1), [Digit(m % 10)], [Digit(n % 10)];
      TextLessOfParts(a, b, c, d);
      assert TextLess(c, d) <==> m % 10 < n % 10;
      assert (a + c)[..w - 1] == a && (b + d)[..w - 1] == b && (a + c)[w - 1] == c[0] && (b + d)[w - 1] == d[0];
    }
  }

  function Text(d: Day): string {
    Padded(d.year, 4) + ("-" + (Padded(d.month, 2) + ("-" + Padded(d.day, 2))))
  }

  /** Two fields, each padded, with a hyphen between: the first decides unless they are equal. */
  lemma FieldThen(m: nat, n: nat, w: nat, c: string, d: string)
    requires m < Power(w) && n < Power(w)
    ensures TextLess(Padded(m, w) + ("-" + c), Padded(n, w) + ("-" + d)) <==> m < n || (m == n && TextLess(c, d))
  {
    PaddedOrder(m, n, w);
    TextLessOfParts(Padded(m, w), Padded(n, w), "-" + c, "-" + d);
    TextLessOfParts("-", "-", c, d);
  }

  /** Up to the year 9999 the texts compare as the dates do. */
  lemma TextOrder(a: Day, b: Day)
    requires a.year <= 9999 && b.year <= 9999
    ensures TextLess(Text(a), Text(b)) <==> Precedes(a, b)
  {
    assert Power(2) == 100 && Power(4) == 10_000 by {
      assert Power(1) == 10 && Power(2) == 100 && Power(3) == 1000;
    }
    FieldThen(a.year, b.year, 4, Padded(a.month, 2) + ("-" + Padded(a.day, 2)), Padded(b.month, 2) + ("-" + Padded(b.day, 2)));
    FieldThen(a.month, b.month, 2, Padded(a.day, 2), Padded(b.day, 2));
    PaddedOrder(a.day, b.day, 2);
  }

  /** Comparing dates as texts and as day numbers agrees, so the latest text is the last day. */
  lemma TextOrderIsDayOrder(a: Day, b: Day)
    ensures Precedes(a, b) <==> Before(a, b)
    ensures a.year <= 9999 && b.year <= 9999 ==> (TextLess(Text(a), Text(b)) <==> Before(a, b))
  {
    if a.year <= 9999 && b.year <= 9999 {
      TextOrder(a, b);
    }
    WithinYear(a);
    WithinYear(b);
    if a.year < b.year {
      YearLength(a.year);
      YearsGrow(a.year + 1, b.year);
    } else if b.year < a.year {
      YearLength(b.year);
      YearsGrow(b.year + 1, a.year);
    }
  }

  // ── Retention rules ───────────────────────────────────────────────────────

  function FindRule(rules: seq<Rule>, scope: string, code: string): Option<nat> {
    if rules == [] then None
    else if rules[0].scope == scope && rules[0].code == code then Some(rules[0].years)
    else FindRule(rules[1..], scope, code)
  }

  function DefaultYears(category: string): nat {
    if category in {"LOAN", "COLLATERAL", "AGREEMENT", "GENERATED"} then 7 else 5
  }

  /** A TYPE rule beats a CATEGORY rule, which beats the default. */
  function RetentionYears(rules: seq<Rule>, category: string, typeCode: string): nat {
    match FindRule(rules, "TYPE", typeCode)
    case Some(years) => years
    case None =>
      match FindRule(rules, "CATEGORY", category)
      case Some(years) => years
      case None => DefaultYears(category)
  }

  /** The first rule of a scope and code counts, and only one of that scope and code. */
  lemma {:induction false} FindRuleIsFirst(rules: seq<Rule>, scope: string, code: string)
    ensures match FindRule(rules, scope, code)
            case None => forall i | 0 <= i < |rules| :: !(rules[i].scope == scope && rules[i].code == code)
            case Some(years) => exists i | 0 <= i < |rules| :: rules[i] == Rule(scope, code, years)
                                  && forall j | 0 <= j < i :: !(rules[j].scope == scope && rules[j].code == code)
  {
    if rules != [] && !(rules[0].scope == scope && rules[0].code == code) {
      FindRuleIsFirst(rules[1..], scope, code);
      var rest := FindRule(rules[1..], scope, code);
      if rest.Some? {
        var i :| 0 <= i < |rules[1..]| && rules[1..][i] == Rule(scope, code, rest.value)
                 && forall j | 0 <= j < i :: !(rules[1..][j].scope == scope && rules[1..][j].code == code);
        assert rules[i + 1] == Rule(scope, code, rest.value);
      }
    }
  }

  function LoanYears(r: Records): nat {
    RetentionYears(r.rules, "LOAN", "")
  }

  function CustomerYears(r: Records): nat {
    RetentionYears(r.rules, "KYC", "")
  }

  // ── The declarative meaning ───────────────────────────────────────────────

  predicate Live(a: Account) {
    a.status in LIVE_LOAN || a.closedAt.None?
  }

  /** Customers with an open application or loan. */
  function OpenCustomers(r: Records): set<CustomerId> {
    (set a | a in r.applications && a.status in OPEN_APPLICATION :: a.borrower)
    + (set a | a in r.accounts && Live(a) :: a.borrower)
    + set l | l in r.legacy && l.status in LEGACY_OPEN :: l.borrower
  }

  /** The days that may end a relationship: the customer's creation and the closing of each loan. */
  function EndDates(r: Records, c: CustomerId): set<Day> {
    (set b | b in r.borrowers && b.id == c :: b.created)
    + (set a | a in r.accounts && !Live(a) && a.borrower == c :: a.closedAt.value)
    + set l | l in r.legacy && l.status !in LEGACY_OPEN && l.borrower == c :: l.updatedAt
  }

  ghost predicate IsLast(ds: set<Day>, d: Day) {
    d in ds && forall e | e in ds :: !Precedes(d, e)
  }

  lemma {:induction false} LastExists(ds: set<Day>)
    requires ds != {}
    ensures exists d :: IsLast(ds, d)
    decreases |ds|
  {
    var x :| x in ds;
    if ds - {x} == {} {
      assert ds == {x};
      assert IsLast(ds, x);
    } else {
      LastExists(ds - {x});
      var d :| IsLast(ds - {x}, d);
      var last := LaterOf(d, x);
      forall e | e in ds
        ensures !Precedes(last, e)
      {
        assert e == x || e in ds - {x};
      }
      assert IsLast(ds, last);
    }
  }

  /** The day a customer's relationship ended, were it not open. */
  ghost function EndOf(r: Records, c: CustomerId): (d: Day)
    requires EndDates(r, c) != {}
    ensures IsLast(EndDates(r, c), d)
  {
    LastExists(EndDates(r, c));
    var d :| IsLast(EndDates(r, c), d);
    d
  }

  /** Until when each record must be kept; None for one that keeps nothing by itself. */
  function AccountKept(r: Records, a: Account): Option<Day> {
    if Live(a) then None else Some(AddYears(a.closedAt.value, LoanYears(r)))
  }

  function LegacyKept(r: Records, l: LegacyLoan): Option<Day> {
    if l.status in LEGACY_OPEN then None else Some(AddYears(l.updatedAt, LoanYears(r)))
  }

  ghost function BorrowerKept(r: Records, b: Borrower): Option<Day>
    requires b in r.borrowers
  {
    assert b.created in EndDates(r, b.id);
    if b.id in OpenCustomers(r) then None else Some(AddYears(EndOf(r, b.id), CustomerYears(r)))
  }

  predicate Held(d: Document) {
    d.status == "ACTIVE" && d.legalHold
  }

  ghost function DocumentKept(r: Records, d: Document): Option<Day> {
    if d.status != "ACTIVE" || d.legalHold || d.borrower in OpenCustomers(r) then None
    else
      var from := if EndDates(r, d.borrower) == {} then d.created else LaterOf(EndOf(r, d.borrower), d.created);
      Some(AddYears(from, RetentionYears(r.rules, d.category, d.typeCode)))
  }

  function AccountsKept(r: Records): seq<Option<Day>> {
    seq(|r.accounts|, i requires 0 <= i < |r.accounts| => AccountKept(r, r.accounts[i]))
  }

  function LegacyLoansKept(r: Records): seq<Option<Day>> {
    seq(|r.legacy|, i requires 0 <= i < |r.legacy| => LegacyKept(r, r.legacy[i]))
  }

  ghost function BorrowersKept(r: Records): seq<Option<Day>> {
    seq(|r.borrowers|, i requires 0 <= i < |r.borrowers| => BorrowerKept(r, r.borrowers[i]))
  }

  ghost function DocumentsKept(r: Records): seq<Option<Day>> {
    seq(|r.documents|, i requires 0 <= i < |r.documents| => DocumentKept(r, r.documents[i]))
  }

  ghost function Kept(r: Records): seq<Option<Day>> {
    AccountsKept(r) + LegacyLoansKept(r) + BorrowersKept(r) + DocumentsKept(r)
  }

  predicate StillKept(kept: Option<Day>, today: Day) {
    kept.Some? && Before(today, kept.value)
  }

  function Retained(kept: seq<Option<Day>>, today: Day): set<nat> {
    set i: nat | i < |kept| && StillKept(kept[i], today)
  }

  /** The last of the retention dates still ahead; none exactly when nothing is retained. */
  ghost predicate IsRetainUntil(kept: seq<Option<Day>>, today: Day, last: Option<Day>) {
    match last
    case None => Retained(kept, today) == {}
    case Some(d) =>
      && (exists i :: i in Retained(kept, today) && kept[i] == last)
      && forall i | i in Retained(kept, today) :: !Precedes(d, kept[i].value)
  }

  function HeldDocuments(documents: seq<Document>): set<nat> {
    set i: nat | i < |documents| && Held(documents[i])
  }

  ghost predicate Meaning(r: Records, today: Day, b: Blockers) {
    && b.legalHolds == |HeldDocuments(r.documents)|
    && b.openRelationships == |OpenCustomers(r)|
    && b.withinRetention == |Retained(Kept(r), today)|
    && IsRetainUntil(Kept(r), today, b.retainUntil)
  }

  // ── Tallying ──────────────────────────────────────────────────────────────

  datatype Tally = Tally(within: nat, last: Option<Day>)

  function Tallied(t: Tally, today: Day, until: Day): Tally {
    if Before(today, until) then Tally(t.within + 1, Some(LaterIfAny(t.last, until))) else t
  }

  ghost predicate Tallies(kept: seq<Option<Day>>, today: Day, t: Tally) {
    t.within == |Retained(kept, today)| && IsRetainUntil(kept, today, t.last)
  }

  lemma RetainedStep(kept: seq<Option<Day>>, today: Day, next: Option<Day>)
    ensures Retained(kept + [next], today) == Retained(kept, today) + (if StillKept(next, today) then {|kept|} else {})
    ensures |Retained(kept + [next], today)| == |Retained(kept, today)| + (if StillKept(next, today) then 1 else 0)
  {
    assert |kept| !in Retained(kept, today);
    assert Retained(kept + [next], today) == Retained(kept, today) + (if StillKept(next, today) then {|kept|} else {});
  }

  lemma LaterOfIsUpper(d: Day, n: Day, e: Day)
    ensures !Precedes(LaterOf(d, n), d) && !Precedes(LaterOf(d, n), n)
    ensures !Precedes(d, e) || e == n ==> !Precedes(LaterOf(d, n), e)
  {
  }

  lemma NotRetainedStep(kept: seq<Option<Day>>, today: Day, last: Option<Day>, next: Option<Day>)
    requires IsRetainUntil(kept, today, last) && !StillKept(next, today)
    ensures IsRetainUntil(kept + [next], today, last)
  {
    RetainedStep(kept, today, next);
    if last.Some? {
      var i :| i in Retained(kept, today) && kept[i] == last;
      assert (kept + [next])[i] == last;
    }
  }

  lemma RetainedNextStep(kept: seq<Option<Day>>, today: Day, last: Option<Day>, next: Option<Day>)
    requires IsRetainUntil(kept, today, last) && StillKept(next, today)
    ensures IsRetainUntil(kept + [next], today, Some(LaterIfAny(last, next.value)))
  {
    var more, end := kept + [next], LaterIfAny(last, next.value);
    RetainedStep(kept, today, next);
    assert more[|kept|] == next;
    if last.Some? {
      var i :| i in Retained(kept, today) && kept[i] == last;
      assert more[i] == last;
      assert (if end == next.value then more[|kept|] else more[i]) == Some(end);
      forall j | j in Retained(more, today)
        ensures !Precedes(end, more[j].value)
      {
        LaterOfIsUpper(last.value, next.value, more[j].value);
      }
    }
  }

  lemma TallyStep(kept: seq<Option<Day>>, today: Day, t: Tally, next: Option<Day>)
    requires Tallies(kept, today, t)
    ensures Tallies(kept + [next], today, if next.None? then t else Tallied(t, today, next.value))
  {
    RetainedStep(kept, today, next);
    if StillKept(next, today) {
      RetainedNextStep(kept, today, t.last, next);
    } else {
      NotRetainedStep(kept, today, t.last, next);
    }
  }

  // ── Following relationships through the loops ─────────────────────────────

  /** The records as far as the loops have read them. */
  function Upto(r: Records, b: nat, a: nat, l: nat): Records
    requires b <= |r.borrowers| && a <= |r.accounts| && l <= |r.legacy|
  {
    r.(borrowers := r.borrowers[..b], accounts := r.accounts[..a], legacy := r.legacy[..l])
  }

  ghost predicate TracksOne(r: Records, ended: map<CustomerId, Day>, c: CustomerId) {
    if c in ended then IsLast(EndDates(r, c), ended[c]) else EndDates(r, c) == {}
  }

  ghost predicate Tracks(r: Records, ended: map<CustomerId, Day>) {
    forall c {:trigger TracksOne(r, ended, c)} :: TracksOne(r, ended, c)
  }

  function Ended(ended: map<CustomerId, Day>, c: CustomerId): Option<Day> {
    if c in ended then Some(ended[c]) else None
  }

  lemma LastGrows(ds: set<Day>, last: Day, d: Day)
    requires IsLast(ds, last)
    ensures IsLast(ds + {d}, LaterOf(last, d))
  {
    forall e | e in ds + {d}
      ensures !Precedes(LaterOf(last, d), e)
    {
      LaterOfIsUpper(last, d, e);
    }
  }

  lemma TracksStep(before: Records, after: Records, ended: map<CustomerId, Day>, c: CustomerId, d: Day)
    requires Tracks(before, ended)
    requires forall k :: EndDates(after, k) == if k == c then EndDates(before, k) + {d} else EndDates(before, k)
    ensures Tracks(after, ended[c := LaterIfAny(Ended(ended, c), d)])
  {
    var more := ended[c := LaterIfAny(Ended(ended, c), d)];
    forall k
      ensures TracksOne(after, more, k)
    {
      assert TracksOne(before, ended, k);
      if k == c && c in ended {
        LastGrows(EndDates(before, c), ended[c], d);
      }
    }
  }

  lemma SameEnds(before: Records, after: Records, ended: map<CustomerId, Day>)
    requires Tracks(before, ended) && forall k :: EndDates(after, k) == EndDates(before, k)
    ensures Tracks(after, ended)
  {
    forall k
      ensures TracksOne(after, ended, k)
    {
      assert TracksOne(before, ended, k);
    }
  }

  lemma AccountEnds(r: Records, b: nat, a: nat, l: nat, c: CustomerId)
    requires b <= |r.borrowers| && a < |r.accounts| && l <= |r.legacy|
    ensures var x := r.accounts[a];
            EndDates(Upto(r, b, a + 1, l), c) ==
            if !Live(x) && x.borrower == c then EndDates(Upto(r, b, a, l), c) + {x.closedAt.value} else EndDates(Upto(r, b, a, l), c)
  {
    assert r.accounts[..a + 1] == r.accounts[..a] + [r.accounts[a]];
  }

  lemma LegacyEnds(r: Records, b: nat, a: nat, l: nat, c: CustomerId)
    requires b <= |r.borrowers| && a <= |r.accounts| && l < |r.legacy|
    ensures var x := r.legacy[l];
            EndDates(Upto(r, b, a, l + 1), c) ==
            if x.status !in LEGACY_OPEN && x.borrower == c then EndDates(Upto(r, b, a, l), c) + {x.updatedAt}
            else EndDates(Upto(r, b, a, l), c)
  {
    assert r.legacy[..l + 1] == r.legacy[..l] + [r.legacy[l]];
  }

  lemma AccountOpens(r: Records, b: nat, a: nat, l: nat)
    requires b <= |r.borrowers| && a < |r.accounts| && l <= |r.legacy|
    ensures var x := r.accounts[a];
            OpenCustomers(Upto(r, b, a + 1, l)) == OpenCustomers(Upto(r, b, a, l)) + (if Live(x) then {x.borrower} else {})
  {
    assert r.accounts[..a + 1] == r.accounts[..a] + [r.accounts[a]];
  }

  lemma LegacyOpens(r: Records, b: nat, a: nat, l: nat)
    requires b <= |r.borrowers| && a <= |r.accounts| && l < |r.legacy|
    ensures var x := r.legacy[l];
            OpenCustomers(Upto(r, b, a, l + 1)) ==
            OpenCustomers(Upto(r, b, a, l)) + (if x.status in LEGACY_OPEN then {x.borrower} else {})
  {
    assert r.legacy[..l + 1] == r.legacy[..l] + [r.legacy[l]];
  }

  predicate UniqueBorrowers(r: Records) {
    forall i, j | 0 <= i < j < |r.borrowers| :: r.borrowers[i].id != r.borrowers[j].id
  }

  /** The state the loops share. */
  datatype Progress = Progress(open: set<CustomerId>, ended: map<CustomerId, Day>, tally: Tally)

  /** Everything up to these records is accounted for, with the retention dates `kept` tallied. */
  ghost predicate Follows(r: Records, today: Day, a: nat, l: nat, kept: seq<Option<Day>>, p: Progress)
    requires a <= |r.accounts| && l <= |r.legacy|
  {
    && p.open == OpenCustomers(Upto(r, |r.borrowers|, a, l))
    && Tracks(Upto(r, |r.borrowers|, a, l), p.ended)
    && Tallies(kept, today, p.tally)
  }

  function AddAccount(r: Records, today: Day, p: Progress, x: Account): Progress {
    if Live(x) then p.(open := p.open + {x.borrower})
    else p.(ended := p.ended[x.borrower := LaterIfAny(Ended(p.ended, x.borrower), x.closedAt.value)],
            tally := Tallied(p.tally, today, AddYears(x.closedAt.value, LoanYears(r))))
  }

  lemma TallyKept(before: seq<Option<Day>>, ks: seq<Option<Day>>, today: Day, i: nat, t: Tally)
    requires i < |ks| && Tallies(before + ks[..i], today, t)
    ensures Tallies(before + ks[..i + 1], today, if ks[i].None? then t else Tallied(t, today, ks[i].value))
  {
    TallyStep(before + ks[..i], today, t, ks[i]);
    assert before + ks[..i + 1] == before + ks[..i] + [ks[i]];
  }

  lemma AccountTracked(r: Records, a: nat, ended: map<CustomerId, Day>, x: Account)
    requires a < |r.accounts| && x == r.accounts[a] && Tracks(Upto(r, |r.borrowers|, a, 0), ended)
    ensures Tracks(Upto(r, |r.borrowers|, a + 1, 0),
                   if Live(x) then ended else ended[x.borrower := LaterIfAny(Ended(ended, x.borrower), x.closedAt.value)])
  {
    var n := |r.borrowers|;
    forall c
      ensures EndDates(Upto(r, n, a + 1, 0), c) ==
              if !Live(x) && x.borrower == c then EndDates(Upto(r, n, a, 0), c) + {x.closedAt.value} else EndDates(Upto(r, n, a, 0), c)
    {
      AccountEnds(r, n, a, 0, c);
    }
    if Live(x) {
      SameEnds(Upto(r, n, a, 0), Upto(r, n, a + 1, 0), ended);
    } else {
      TracksStep(Upto(r, n, a, 0), Upto(r, n, a + 1, 0), ended, x.borrower, x.closedAt.value);
    }
  }

  lemma AccountFollows(r: Records, today: Day, a: nat, before: seq<Option<Day>>, p: Progress)
    requires a < |r.accounts| && Follows(r, today, a, 0, before + AccountsKept(r)[..a], p)
    ensures Follows(r, today, a + 1, 0, before + AccountsKept(r)[..a + 1], AddAccount(r, today, p, r.accounts[a]))
  {
    AccountTracked(r, a, p.ended, r.accounts[a]);
    AccountOpens(r, |r.borrowers|, a, 0);
    TallyKept(before, AccountsKept(r), today, a, p.tally);
  }

  function AddLegacy(r: Records, today: Day, p: Progress, x: LegacyLoan): Progress {
    if x.status in LEGACY_OPEN then p.(open := p.open + {x.borrower})
    else p.(ended := p.ended[x.borrower := LaterIfAny(Ended(p.ended, x.borrower), x.updatedAt)],
            tally := Tallied(p.tally, today, AddYears(x.updatedAt, LoanYears(r))))
  }

  lemma LegacyFollows(r: Records, today: Day, l: nat, before: seq<Option<Day>>, p: Progress)
    requires l < |r.legacy| && Follows(r, today, |r.accounts|, l, before + LegacyLoansKept(r)[..l], p)
    ensures Follows(r, today, |r.accounts|, l + 1, before + LegacyLoansKept(r)[..l + 1], AddLegacy(r, today, p, r.legacy[l]))
  {
    LegacyTracked(r, l, p.ended, r.legacy[l]);
    LegacyOpens(r, |r.borrowers|, |r.accounts|, l);
    TallyKept(before, LegacyLoansKept(r), today, l, p.tally);
  }

  lemma LegacyTracked(r: Records, l: nat, ended: map<CustomerId, Day>, x: LegacyLoan)
    requires l < |r.legacy| && x == r.legacy[l] && Tracks(Upto(r, |r.borrowers|, |r.accounts|, l), ended)
    ensures Tracks(Upto(r, |r.borrowers|, |r.accounts|, l + 1),
                   if x.status in LEGACY_OPEN then ended else ended[x.borrower := LaterIfAny(Ended(ended, x.borrower), x.updatedAt)])
  {
    var n, m := |r.borrowers|, |r.accounts|;
    forall c
      ensures EndDates(Upto(r, n, m, l + 1), c) ==
              if x.status !in LEGACY_OPEN && x.borrower == c then EndDates(Upto(r, n, m, l), c) + {x.updatedAt}
              else EndDates(Upto(r, n, m, l), c)
    {
      LegacyEnds(r, n, m, l, c);
    }
    if x.status in LEGACY_OPEN {
      SameEnds(Upto(r, n, m, l), Upto(r, n, m, l + 1), ended);
    } else {
      TracksStep(Upto(r, n, m, l), Upto(r, n, m, l + 1), ended, x.borrower, x.updatedAt);
    }
  }

  // ── The loops ─────────────────────────────────────────────────────────────

  method OpenApplications(r: Records) returns (open: set<CustomerId>)
    ensures open == OpenCustomers(Upto(r, |r.borrowers|, 0, 0))
  {
    open := {};
    for i := 0 to |r.applications|
      invariant open == set a | a in r.applications[..i] && a.status in OPEN_APPLICATION :: a.borrower
    {
      assert r.applications[..i + 1] == r.applications[..i] + [r.applications[i]];
      if r.applications[i].status in OPEN_APPLICATION {
        open := open + {r.applications[i].borrower};
      }
    }
    assert r.applications[..|r.applications|] == r.applications;
  }

  lemma BorrowerEnds(r: Records, b: nat, c: CustomerId)
    requires b < |r.borrowers|
    ensures var x := r.borrowers[b];
            EndDates(Upto(r, b + 1, 0, 0), c) ==
            if x.id == c then EndDates(Upto(r, b, 0, 0), c) + {x.created} else EndDates(Upto(r, b, 0, 0), c)
  {
    assert r.borrowers[..b + 1] == r.borrowers[..b] + [r.borrowers[b]];
  }

  method Relationships(r: Records) returns (ended: map<CustomerId, Day>)
    requires UniqueBorrowers(r)
    ensures Tracks(Upto(r, |r.borrowers|, 0, 0), ended)
  {
    ended := map[];
    for i := 0 to |r.borrowers|
      invariant Tracks(Upto(r, i, 0, 0), ended)
      invariant forall c | c in ended :: exists j | 0 <= j < i :: r.borrowers[j].id == c
    {
      var x := r.borrowers[i];
      forall c
        ensures EndDates(Upto(r, i + 1, 0, 0), c) ==
                if x.id == c then EndDates(Upto(r, i, 0, 0), c) + {x.created} else EndDates(Upto(r, i, 0, 0), c)
      {
        BorrowerEnds(r, i, c);
      }
      TracksStep(Upto(r, i, 0, 0), Upto(r, i + 1, 0, 0), ended, x.id, x.created);
      ended := ended[x.id := x.created];
    }
  }

  lemma NothingRead(r: Records, today: Day, open: set<CustomerId>, ended: map<CustomerId, Day>)
    requires open == OpenCustomers(Upto(r, |r.borrowers|, 0, 0)) && Tracks(Upto(r, |r.borrowers|, 0, 0), ended)
    ensures Follows(r, today, 0, 0, [], Progress(open, ended, Tally(0, None)))
  {
    assert Retained([], today) == {};
  }

  method Accounts(r: Records, today: Day, ghost before: seq<Option<Day>>, start: Progress) returns (p: Progress)
    requires Follows(r, today, 0, 0, before, start)
    ensures Follows(r, today, |r.accounts|, 0, before + AccountsKept(r), p)
  {
    p := start;
    assert before + AccountsKept(r)[..0] == before;
    for i := 0 to |r.accounts|
      invariant Follows(r, today, i, 0, before + AccountsKept(r)[..i], p)
    {
      AccountFollows(r, today, i, before, p);
      p := AddAccount(r, today, p, r.accounts[i]);
    }
    assert AccountsKept(r)[..|r.accounts|] == AccountsKept(r);
  }

  method Legacy(r: Records, today: Day, ghost before: seq<Option<Day>>, start: Progress) returns (p: Progress)
    requires Follows(r, today, |r.accounts|, 0, before, start)
    ensures Follows(r, today, |r.accounts|, |r.legacy|, before + LegacyLoansKept(r), p)
  {
    p := start;
    assert before + LegacyLoansKept(r)[..0] == before;
    for i := 0 to |r.legacy|
      invariant Follows(r, today, |r.accounts|, i, before + LegacyLoansKept(r)[..i], p)
    {
      LegacyFollows(r, today, i, before, p);
      p := AddLegacy(r, today, p, r.legacy[i]);
    }
    assert LegacyLoansKept(r)[..|r.legacy|] == LegacyLoansKept(r);
  }

  lemma WholeRecords(r: Records, ended: map<CustomerId, Day>, c: CustomerId)
    requires Tracks(Upto(r, |r.borrowers|, |r.accounts|, |r.legacy|), ended)
    ensures OpenCustomers(Upto(r, |r.borrowers|, |r.accounts|, |r.legacy|)) == OpenCustomers(r)
    ensures c in ended <==> EndDates(r, c) != {}
    ensures c in ended ==> ended[c] == EndOf(r, c)
  {
    assert Upto(r, |r.borrowers|, |r.accounts|, |r.legacy|) == r;
    assert TracksOne(r, ended, c);
    if c in ended {
      OneLast(EndDates(r, c), ended[c], EndOf(r, c));
    }
  }

  lemma OneLast(ds: set<Day>, a: Day, b: Day)
    requires IsLast(ds, a) && IsLast(ds, b)
    ensures a == b
  {
    assert !Precedes(a, b) && !Precedes(b, a);
  }

  method Customers(r: Records, today: Day, open: set<CustomerId>, ended: map<CustomerId, Day>,
                   ghost before: seq<Option<Day>>, start: Tally)
    returns (tally: Tally)
    requires open == OpenCustomers(r) && Tracks(Upto(r, |r.borrowers|, |r.accounts|, |r.legacy|), ended)
    requires Tallies(before, today, start)
    ensures Tallies(before + BorrowersKept(r), today, tally)
  {
    tally := start;
    assert before + BorrowersKept(r)[..0] == before;
    for i := 0 to |r.borrowers|
      invariant Tallies(before + BorrowersKept(r)[..i], today, tally)
    {
      BorrowerFollows(r, today, open, ended, before, i, tally);
      if r.borrowers[i].id !in open {
        tally := Tallied(tally, today, AddYears(ended[r.borrowers[i].id], CustomerYears(r)));
      }
    }
    assert BorrowersKept(r)[..|r.borrowers|] == BorrowersKept(r);
  }

  lemma BorrowerFollows(r: Records, today: Day, open: set<CustomerId>, ended: map<CustomerId, Day>,
                        before: seq<Option<Day>>, i: nat, t: Tally)
    requires open == OpenCustomers(r) && Tracks(Upto(r, |r.borrowers|, |r.accounts|, |r.legacy|), ended)
    requires i < |r.borrowers| && Tallies(before + BorrowersKept(r)[..i], today, t)
    ensures var id := r.borrowers[i].id;
            id in ended && Tallies(before + BorrowersKept(r)[..i + 1], today,
                                   if id in open then t else Tallied(t, today, AddYears(ended[id], CustomerYears(r))))
  {
    var b := r.borrowers[i];
    assert b.created in EndDates(r, b.id);
    WholeRecords(r, ended, b.id);
    TallyKept(before, BorrowersKept(r), today, i, t);
  }

  function AddDocument(r: Records, today: Day, open: set<CustomerId>, ended: map<CustomerId, Day>, t: Tally, d: Document): Tally {
    if d.status != "ACTIVE" || d.legalHold || d.borrower in open then t
    else
      var end := if d.borrower in ended then ended[d.borrower] else d.created;
      var from := if Precedes(d.created, end) then end else d.created;
      Tallied(t, today, AddYears(from, RetentionYears(r.rules, d.category, d.typeCode)))
  }

  lemma DocumentFollows(r: Records, today: Day, open: set<CustomerId>, ended: map<CustomerId, Day>,
                        before: seq<Option<Day>>, i: nat, t: Tally)
    requires open == OpenCustomers(r) && Tracks(Upto(r, |r.borrowers|, |r.accounts|, |r.legacy|), ended)
    requires i < |r.documents| && Tallies(before + DocumentsKept(r)[..i], today, t)
    ensures Tallies(before + DocumentsKept(r)[..i + 1], today, AddDocument(r, today, open, ended, t, r.documents[i]))
  {
    var d := r.documents[i];
    WholeRecords(r, ended, d.borrower);
    DocumentTallied(r, today, open, ended, t, d);
    TallyKept(before, DocumentsKept(r), today, i, t);
  }

  lemma DocumentTallied(r: Records, today: Day, open: set<CustomerId>, ended: map<CustomerId, Day>, t: Tally, d: Document)
    requires open == OpenCustomers(r)
    requires d.borrower in ended <==> EndDates(r, d.borrower) != {}
    requires d.borrower in ended ==> ended[d.borrower] == EndOf(r, d.borrower)
    ensures var kept := DocumentKept(r, d);
            AddDocument(r, today, open, ended, t, d) == if kept.None? then t else Tallied(t, today, kept.value)
  {
    if d.borrower in ended {
      FromIsLaterOf(ended[d.borrower], d.created);
    }
  }

  /** A tie keeps either date: they are the same day. */
  lemma FromIsLaterOf(end: Day, filed: Day)
    ensures (if Precedes(filed, end) then end else filed) == LaterOf(end, filed)
  {
  }

  /** The document loop's state after the first `i` documents. */
  ghost predicate DocumentsUpto(r: Records, today: Day, before: seq<Option<Day>>, i: nat, tally: Tally, holds: nat)
    requires i <= |r.documents|
  {
    Tallies(before + DocumentsKept(r)[..i], today, tally) && HoldsUpto(r.documents, i, holds)
  }

  lemma DocumentsStart(r: Records, today: Day, before: seq<Option<Day>>, start: Tally)
    requires Tallies(before, today, start)
    ensures DocumentsUpto(r, today, before, 0, start, 0)
  {
    assert before + DocumentsKept(r)[..0] == before;
    assert HeldDocuments(r.documents[..0]) == {};
  }

  lemma DocumentsEnd(r: Records, today: Day, before: seq<Option<Day>>, tally: Tally, holds: nat)
    requires DocumentsUpto(r, today, before, |r.documents|, tally, holds)
    ensures Tallies(before + DocumentsKept(r), today, tally) && holds == |HeldDocuments(r.documents)|
  {
    assert DocumentsKept(r)[..|r.documents|] == DocumentsKept(r);
    assert r.documents[..|r.documents|] == r.documents;
  }

  lemma DocumentsNext(r: Records, today: Day, open: set<CustomerId>, ended: map<CustomerId, Day>,
                      before: seq<Option<Day>>, i: nat, tally: Tally, holds: nat)
    requires open == OpenCustomers(r) && Tracks(Upto(r, |r.borrowers|, |r.accounts|, |r.legacy|), ended)
    requires i < |r.documents| && DocumentsUpto(r, today, before, i, tally, holds)
    ensures DocumentsUpto(r, today, before, i + 1, AddDocument(r, today, open, ended, tally, r.documents[i]),
                          if Held(r.documents[i]) then holds + 1 else holds)
  {
    HoldsStep(r.documents, i, holds);
    DocumentFollows(r, today, open, ended, before, i, tally);
  }

  method Documents(r: Records, today: Day, open: set<CustomerId>, ended: map<CustomerId, Day>,
                   ghost before: seq<Option<Day>>, start: Tally)
    returns (tally: Tally, holds: nat)
    requires open == OpenCustomers(r) && Tracks(Upto(r, |r.borrowers|, |r.accounts|, |r.legacy|), ended)
    requires Tallies(before, today, start)
    ensures Tallies(before + DocumentsKept(r), today, tally) && holds == |HeldDocuments(r.documents)|
  {
    tally, holds := start, 0;
    DocumentsStart(r, today, before, start);
    for i := 0 to |r.documents|
      invariant DocumentsUpto(r, today, before, i, tally, holds)
    {
      DocumentsNext(r, today, open, ended, before, i, tally, holds);
      if Held(r.documents[i]) {
        holds := holds + 1;
      }
      tally := AddDocument(r, today, open, ended, tally, r.documents[i]);
    }
    DocumentsEnd(r, today, before, tally, holds);
  }

  ghost predicate HoldsUpto(documents: seq<Document>, i: nat, holds: nat)
    requires i <= |documents|
  {
    holds == |HeldDocuments(documents[..i])|
  }

  lemma HoldsStep(documents: seq<Document>, i: nat, holds: nat)
    requires i < |documents| && HoldsUpto(documents, i, holds)
    ensures HoldsUpto(documents, i + 1, if Held(documents[i]) then holds + 1 else holds)
  {
    assert i !in HeldDocuments(documents[..i]);
    assert HeldDocuments(documents[..i + 1]) == HeldDocuments(documents[..i]) + (if Held(documents[i]) then {i} else {});
  }

  /** What the loan loops leave: who is open, when the others ended, and the loans still kept. */
  method Loans(r: Records, today: Day) returns (p: Progress)
    requires UniqueBorrowers(r)
    ensures Follows(r, today, |r.accounts|, |r.legacy|, AccountsKept(r) + LegacyLoansKept(r), p)
  {
    var open := OpenApplications(r);
    var ended := Relationships(r);
    NothingRead(r, today, open, ended);
    p := Accounts(r, today, [], Progress(open, ended, Tally(0, None)));
    assert [] + AccountsKept(r) == AccountsKept(r);
    p := Legacy(r, today, AccountsKept(r), p);
  }

  /** The chained loops compute exactly what the blockers mean. */
  method FindBlockers(r: Records, today: Day) returns (b: Blockers)
    requires UniqueBorrowers(r)
    ensures Meaning(r, today, b)
  {
    var p := Loans(r, today);
    WholeRecords(r, p.ended, "");
    ghost var loans := AccountsKept(r) + LegacyLoansKept(r);
    var tally := Customers(r, today, p.open, p.ended, loans, p.tally);
    var all, holds := Documents(r, today, p.open, p.ended, loans + BorrowersKept(r), tally);
    b := Blockers(holds, |p.open|, all.within, all.last);
  }

  // ── What the blockers promise ─────────────────────────────────────────────

  /** Nothing blocks the purge on this day. */
  ghost predicate Allowed(r: Records, today: Day) {
    HeldDocuments(r.documents) == {} && OpenCustomers(r) == {} && Retained(Kept(r), today) == {}
  }

  /** The check on the reported numbers allows a purge exactly when nothing blocks it. */
  lemma NumbersDecide(r: Records, today: Day, b: Blockers)
    requires Meaning(r, today, b)
    ensures b.legalHolds == 0 && b.openRelationships == 0 && b.withinRetention == 0 <==> Allowed(r, today)
    ensures b.retainUntil.None? <==> b.withinRetention == 0
  {
  }

  /** If the records do not change, a purge allowed on one day is allowed on every later day. */
  lemma AllowedForGood(r: Records, today: Day, day: Day)
    requires Allowed(r, today) && !Precedes(day, today)
    ensures Allowed(r, day)
  {
    TextOrderIsDayOrder(day, today);
    assert Retained(Kept(r), day) <= Retained(Kept(r), today);
  }

  /** Once only retention blocks, the reported date is exactly the first day on which the purge is allowed. */
  lemma RetainUntilIsTheFirstDay(r: Records, today: Day, b: Blockers, day: Day)
    requires Meaning(r, today, b) && b.legalHolds == 0 && b.openRelationships == 0 && b.retainUntil.Some?
    ensures Allowed(r, day) <==> !Precedes(day, b.retainUntil.value)
  {
    var kept, last := Kept(r), b.retainUntil.value;
    TextOrderIsDayOrder(day, last);
    var i :| i in Retained(kept, today) && kept[i] == Some(last);
    if Before(day, last) {
      assert i in Retained(kept, day);
    } else {
      forall j | j in Retained(kept, day)
        ensures false
      {
        if j in Retained(kept, today) {
          TextOrderIsDayOrder(last, kept[j].value);
        }
      }
    }
  }
}
