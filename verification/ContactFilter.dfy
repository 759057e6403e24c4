/**
  `db_filter_contacts`: a query grown clause by clause, with its values bound by
  position, and what the rows it returns mean.  The SQL engine is a relation
  between a database, a query and the rows it may return.
 */
module ContactFilter {
  import opened Prelude

  datatype Contact = Contact(id: string, email: string)

  datatype Pivot = Pivot(entityType: string, entityId: string, tagId: string)

  /** The tables the query reads, and the columns that `entity_pivots` has. */
  datatype Database = Database(
    contacts: seq<Contact>,
    pivots: seq<Pivot>,
    pivotColumns: set<string>,
    groupPivots: seq<(string, string)>)   // contact, group

  /** The columns the migrations give `entity_pivots`. */
  const MIGRATED_PIVOT_COLUMNS := {"id", "entity_type", "entity_id", "pivot_type", "pivot_id", "created_at"}

  datatype Request = Request(tagId: Option<string>, groupId: Option<string>, limit: int, offset: int)

  datatype Join = JoinTag | JoinGroup | JoinSegment

  datatype Bind = Str(s: string) | Ids(ids: seq<string>) | Num(n: int)

  /** `SELECT c.* FROM contacts c`, the joins, then `ORDER BY c.email ASC LIMIT ? OFFSET ?`. */
  datatype Query = Query(joins: seq<Join>, binds: seq<Bind>)

  // ----- what the engine does -----

  function Count<T>(xs: seq<T>, matches: T -> bool): nat {
    if xs == [] then 0 else Count(xs[..|xs| - 1], matches) + if matches(xs[|xs| - 1]) then 1 else 0
  }

  /** How many rows a join pairs with a contact, given the value bound at its placeholder. */
  function Partners(db: Database, join: Join, bind: Bind, c: Contact): nat {
    match (join, bind)
    case (JoinTag, Str(tag)) =>
      Count(db.pivots, (p: Pivot) => p.entityId == c.id && p.entityType == "contact" && p.tagId == tag)
    case (JoinGroup, Str(group)) => Count(db.groupPivots, (p: (string, string)) => p.0 == c.id && p.1 == group)
    case (JoinSegment, Ids(ids)) => Count(ids, id => id == c.id)
    case _ => 0
  }

  ghost function Matching<T>(xs: seq<T>, matches: T -> bool): set<nat> { set i: nat | i < |xs| && matches(xs[i]) }

  lemma MatchingStep<T>(xs: seq<T>, matches: T -> bool)
    requires xs != []
    ensures var n := |xs| - 1;
            && n !in Matching(xs[..n], matches)
            && Matching(xs, matches) == Matching(xs[..n], matches) + if matches(xs[n]) then {n} else {}
  {
    var n := |xs| - 1;
    forall i: nat | i < n ensures i in Matching(xs, matches) <==> i in Matching(xs[..n], matches) {
      assert xs[..n][i] == xs[i];
    }
  }

  /** The count is of places. */
  lemma {:induction false} CountIs<T>(xs: seq<T>, matches: T -> bool)
    ensures Count(xs, matches) == |Matching(xs, matches)|
  {
    if xs == [] {
      assert Matching(xs, matches) == {};
    } else {
      CountIs(xs[..|xs| - 1], matches);
      MatchingStep(xs, matches);
      hide Matching;
    }
  }

  /** An inner join: each row once for every partner. */
  function Joined(db: Database, join: Join, bind: Bind, rows: seq<Contact>): seq<Contact> {
    if rows == [] then [] else
    var c := rows[|rows| - 1];
    Joined(db, join, bind, rows[..|rows| - 1]) + Copies(Partners(db, join, bind, c), c)
  }

  /** The joins in order, the `i`-th reading the `i`-th bound value. */
  function AllJoined(db: Database, q: Query, n: nat): seq<Contact>
    requires n <= |q.joins| && n <= |q.binds|
  {
    if n == 0 then db.contacts else Joined(db, q.joins[n - 1], q.binds[n - 1], AllJoined(db, q, n - 1))
  }

  /** Text order: the first differing character decides. */
  predicate Leq(a: string, b: string) {
    a == "" || (b != "" && (a[0] < b[0] || (a[0] == b[0] && Leq(a[1..], b[1..]))))
  }

  predicate ByEmail(rows: seq<Contact>) {
    forall i, j :: 0 <= i < j < |rows| ==> Leq(rows[i].email, rows[j].email)
  }

  /** `LIMIT` and `OFFSET`: a negative limit is none, a negative offset is zero. */
  function Window(rows: seq<Contact>, limit: int, offset: int): seq<Contact> {
    var from := if offset < 0 then 0 else if offset > |rows| then |rows| else offset;
    var to := if limit < 0 || from + limit > |rows| then |rows| else from + limit;
    rows[from..to]
  }

  lemma SameHead(a: string, b: string, k: nat)
    requires k < |a| && k < |b|
    ensures a[..k] == b[..k] && k > 0 ==> a[0] == b[0]
  {
    if k > 0 { assert a[..k][0] == a[0] && b[..k][0] == b[0]; }
  }

  /** The order of text: a prefix comes first, otherwise the first differing character decides. */
  lemma {:induction false} LeqIff(a: string, b: string)
    ensures Leq(a, b) <==> a <= b || exists k :: 0 <= k < |a| && k < |b| && a[..k] == b[..k] && a[k] < b[k]
  {
    if a == "" || b == "" {
    } else {
      LeqIff(a[1..], b[1..]);
      assert a == [a[0]] + a[1..] && b == [b[0]] + b[1..];
      if a[0] == b[0] {
        if k :| 0 <= k < |a| - 1 && k < |b| - 1 && a[1..][..k] == b[1..][..k] && a[1..][k] < b[1..][k] {
          assert a[..k + 1] == [a[0]] + a[1..][..k] && b[..k + 1] == [b[0]] + b[1..][..k];
          assert a[k + 1] < b[k + 1];
        }
        if k :| 0 <= k < |a| && k < |b| && a[..k] == b[..k] && a[k] < b[k] {
          assert k > 0;
          assert a[1..][..k - 1] == a[..k][1..] && b[1..][..k - 1] == b[..k][1..];
          assert a[1..][k - 1] < b[1..][k - 1];
        }
      } else if a[0] < b[0] {
        assert a[..0] == b[..0];
      } else {
        forall k | 0 <= k < |a| && k < |b| && a[..k] == b[..k] ensures !(a[k] < b[k]) {
          SameHead(a, b, k);
        }
      }
    }
  }

  lemma {:induction false} LeqTotal(a: string, b: string)
    ensures Leq(a, b) || Leq(b, a)
    ensures Leq(a, b) && Leq(b, a) <==> a == b
  {
    if a == "" || b == "" {
    } else {
      LeqTotal(a[1..], b[1..]);
      assert a == [a[0]] + a[1..] && b == [b[0]] + b[1..];
    }
  }

  lemma {:induction false} LeqTransitive(a: string, b: string, c: string)
    requires Leq(a, b) && Leq(b, c)
    ensures Leq(a, c)
  {
    if a == "" || b == "" || c == "" {
    } else if a[0] == b[0] == c[0] {
      LeqTransitive(a[1..], b[1..], c[1..]);
    }
  }

  /** A page: from the offset on, at most `limit` rows, in place. */
  lemma WindowMeans(rows: seq<Contact>, limit: nat, offset: nat)
    ensures var page := Window(rows, limit, offset);
            && |page| == (if offset >= |rows| then 0 else if |rows| - offset < limit then |rows| - offset else limit)
            && forall i :: 0 <= i < |page| ==> page[i] == rows[offset + i]
    ensures Window(rows, -1, offset) == if offset <= |rows| then rows[offset..] else []
  {
  }

  /** The pages of one size, one after the other from an offset on. */
  function Pages(rows: seq<Contact>, limit: nat, offset: nat): seq<Contact>
    requires limit > 0
    decreases if offset < |rows| then |rows| - offset else 0
  {
    if offset >= |rows| then [] else Window(rows, limit, offset) + Pages(rows, limit, offset + limit)
  }

  lemma PageAndRest(rows: seq<Contact>, limit: nat, offset: nat)
    requires offset < |rows|
    ensures rows[offset..] == Window(rows, limit, offset)
                              + if offset + limit <= |rows| then rows[offset + limit..] else []
  {
  }

  /** Consecutive pages hold every row once and in order. */
  lemma {:induction false} PagesPartition(rows: seq<Contact>, limit: nat, offset: nat)
    requires limit > 0
    ensures Pages(rows, limit, offset) == if offset <= |rows| then rows[offset..] else []
    decreases if offset < |rows| then |rows| - offset else 0
  {
    hide Window;
    if offset >= |rows| {
    } else {
      PagesPartition(rows, limit, offset + limit);
      PageAndRest(rows, limit, offset);
    }
  }

  /** The statement can be prepared: every column it names exists. */
  predicate Prepares(db: Database, q: Query) {
    JoinTag in q.joins ==> {"entity_id", "entity_type", "tag_id"} <= db.pivotColumns
  }

  /** The engine may return `out`. */
  ghost predicate Answers(db: Database, q: Query, out: seq<Contact>) {
    && Prepares(db, q)
    && |q.binds| == |q.joins| + 2 && q.binds[|q.joins|].Num? && q.binds[|q.joins| + 1].Num?
    && exists rows: seq<Contact> ::
         && multiset(rows) == multiset(AllJoined(db, q, |q.joins|)) && ByEmail(rows)
         && out == Window(rows, q.binds[|q.joins|].n, q.binds[|q.joins| + 1].n)
  }

  // ----- what the command does -----

  /** The query, or nothing when the segment has no members and the command returns no rows at once. */
  method BuildFilter(req: Request, segmentIds: Option<seq<string>>) returns (q: Option<Query>)
    ensures q.None? <==> segmentIds == Some([])
    ensures q.Some? ==> Means(req, segmentIds, q.value)
  {
    var joins: seq<Join> := [];
    if req.tagId.Some? {
      joins := joins + [JoinTag];
    }
    if req.groupId.Some? {
      joins := joins + [JoinGroup];
    }
    if segmentIds.Some? {
      joins := joins + [JoinSegment];
    }
    if segmentIds.Some? && segmentIds.value == [] {
      return None;
    }
    var binds: seq<Bind> := [];
    if req.tagId.Some? {
      binds := binds + [Str(req.tagId.value)];
    }
    if req.groupId.Some? {
      binds := binds + [Str(req.groupId.value)];
    }
    if segmentIds.Some? {
      binds := binds + [Ids(segmentIds.value)];
    }
    binds := binds + [Num(req.limit)] + [Num(req.offset)];
    var query := Query(joins, binds);
    ghost var parts := Parts(req, segmentIds);
    assert joins == Joins(parts) && binds == Binds(parts) + [Num(req.limit), Num(req.offset)];
    PartsMean(req, segmentIds, query);
    return Some(query);
  }

  /** A join with the value that belongs to it. */
  function Parts(req: Request, segmentIds: Option<seq<string>>): seq<(Join, Bind)> {
    (if req.tagId.Some? then [(JoinTag, Str(req.tagId.value))] else [])
    + (if req.groupId.Some? then [(JoinGroup, Str(req.groupId.value))] else [])
    + (if segmentIds.Some? then [(JoinSegment, Ids(segmentIds.value))] else [])
  }

  function Joins(parts: seq<(Join, Bind)>): seq<Join> { seq(|parts|, i requires 0 <= i < |parts| => parts[i].0) }
  function Binds(parts: seq<(Join, Bind)>): seq<Bind> { seq(|parts|, i requires 0 <= i < |parts| => parts[i].1) }

  function Times(a: nat, b: nat): nat { a * b }

  /** How often a contact answers the request: a factor for each membership asked for. */
  function Multiplicity(db: Database, req: Request, segmentIds: Option<seq<string>>, c: Contact): nat {
    var tags: nat := if req.tagId.Some? then Partners(db, JoinTag, Str(req.tagId.value), c) else 1;
    var groups: nat := if req.groupId.Some? then Partners(db, JoinGroup, Str(req.groupId.value), c) else 1;
    var segments: nat := if segmentIds.Some? then Partners(db, JoinSegment, Ids(segmentIds.value), c) else 1;
    Times(Times(Times(multiset(db.contacts)[c], tags), groups), segments)
  }

  /** The query joins as often as the request says, in every database, and binds its limit and offset last. */
  ghost predicate Means(req: Request, segmentIds: Option<seq<string>>, q: Query) {
    && |q.binds| == |q.joins| + 2
    && q.binds[|q.joins|] == Num(req.limit) && q.binds[|q.joins| + 1] == Num(req.offset)
    && (JoinTag in q.joins <==> req.tagId.Some?)
    && (forall db: Database, c: Contact ::
          multiset(AllJoined(db, q, |q.joins|))[c] == Multiplicity(db, req, segmentIds, c))
  }

  lemma {:induction false} JoinedCount(db: Database, join: Join, bind: Bind, rows: seq<Contact>, c: Contact)
    ensures multiset(Joined(db, join, bind, rows))[c] == multiset(rows)[c] * Partners(db, join, bind, c)
  {
    hide Partners, Copies;
    if rows == [] {
    } else {
      var init, last := rows[..|rows| - 1], rows[|rows| - 1];
      var p := Partners(db, join, bind, last);
      JoinedCount(db, join, bind, init, c);
      CopiesCount(last, p, c);
      OneMoreRow(init, last, c, Partners(db, join, bind, c));
      assert rows == init + [last];
      assert multiset(Joined(db, join, bind, rows))[c]
          == multiset(Joined(db, join, bind, init))[c] + multiset(Copies(p, last))[c];
    }
  }

  lemma OneMoreRow(init: seq<Contact>, last: Contact, c: Contact, p: nat)
    ensures multiset(init + [last])[c] * p == multiset(init)[c] * p + if last == c then p else 0
  {
    OneMore(multiset(init)[c], p);
  }

  lemma OneMore(k: nat, p: nat)
    ensures (k + 1) * p == k * p + p
  {
  }

  lemma {:induction false} CopiesCount(c: Contact, n: nat, d: Contact)
    ensures multiset(Copies(n, c))[d] == if c == d then n else 0
  {
    if n == 0 {
    } else {
      CopiesCount(c, n - 1, d);
      assert Copies(n, c) == Copies(n - 1, c) + [c];
    }
  }

  function Product(db: Database, parts: seq<(Join, Bind)>, c: Contact): nat {
    if parts == [] then multiset(db.contacts)[c]
    else Product(db, parts[..|parts| - 1], c) * Partners(db, parts[|parts| - 1].0, parts[|parts| - 1].1, c)
  }

  lemma {:induction false} AllJoinedCount(db: Database, q: Query, parts: seq<(Join, Bind)>, n: nat, c: Contact)
    requires n <= |parts| && q.joins == Joins(parts) && Binds(parts) <= q.binds
    ensures multiset(AllJoined(db, q, n))[c] == Product(db, parts[..n], c)
  {
    hide Partners;
    if n == 0 {
    } else {
      AllJoinedCount(db, q, parts, n - 1, c);
      assert parts[..n][..n - 1] == parts[..n - 1] && q.binds[n - 1] == Binds(parts)[n - 1];
      JoinedCount(db, q.joins[n - 1], q.binds[n - 1], AllJoined(db, q, n - 1), c);
    }
  }

  lemma PartsMean(req: Request, segmentIds: Option<seq<string>>, q: Query)
    requires q.joins == Joins(Parts(req, segmentIds))
    requires q.binds == Binds(Parts(req, segmentIds)) + [Num(req.limit), Num(req.offset)]
    ensures Means(req, segmentIds, q)
  {
    hide Partners;
    var parts := Parts(req, segmentIds);
    if req.tagId.Some? { assert q.joins[0] == JoinTag; }
    assert JoinTag in q.joins ==> exists part :: part in parts && part.0 == JoinTag;
    forall db: Database, c: Contact
      ensures multiset(AllJoined(db, q, |q.joins|))[c] == Multiplicity(db, req, segmentIds, c)
    {
      AllJoinedCount(db, q, parts, |parts|, c);
      assert parts[..|parts|] == parts;
      ProductOfParts(db, req, segmentIds, c);
    }
  }

  lemma ProductOfParts(db: Database, req: Request, segmentIds: Option<seq<string>>, c: Contact)
    ensures Product(db, Parts(req, segmentIds), c) == Multiplicity(db, req, segmentIds, c)
  {
    hide Partners;
    var t: seq<(Join, Bind)> := if req.tagId.Some? then [(JoinTag, Str(req.tagId.value))] else [];
    var g: seq<(Join, Bind)> := if req.groupId.Some? then [(JoinGroup, Str(req.groupId.value))] else [];
    var s: seq<(Join, Bind)> := if segmentIds.Some? then [(JoinSegment, Ids(segmentIds.value))] else [];
    assert Parts(req, segmentIds) == t + g + s;
    ProductAppend(db, [], t, c);
    ProductAppend(db, t, g, c);
    ProductAppend(db, t + g, s, c);
    assert [] + t == t;
  }

  lemma ProductAppend(db: Database, parts: seq<(Join, Bind)>, more: seq<(Join, Bind)>, c: Contact)
    requires |more| <= 1
    ensures Product(db, parts + more, c)
         == Product(db, parts, c) * if more == [] then 1 else Partners(db, more[0].0, more[0].1, c)
  {
    hide Partners;
    if more == [] {
      assert parts + more == parts;
    } else {
      assert (parts + more)[..|parts|] == parts;
    }
  }

  // ----- memberships -----

  predicate HasTag(db: Database, req: Request, c: Contact) {
    req.tagId.Some? ==> Pivot("contact", c.id, req.tagId.value) in db.pivots
  }

  predicate InGroup(db: Database, req: Request, c: Contact) {
    req.groupId.Some? ==> (c.id, req.groupId.value) in db.groupPivots
  }

  predicate InSegment(segmentIds: Option<seq<string>>, c: Contact) {
    segmentIds.Some? ==> c.id in segmentIds.value
  }

  /** The contact has every membership asked for. */
  predicate Satisfies(db: Database, req: Request, segmentIds: Option<seq<string>>, c: Contact) {
    HasTag(db, req, c) && InGroup(db, req, c) && InSegment(segmentIds, c)
  }

  lemma {:induction false} CountPositive<T>(xs: seq<T>, matches: T -> bool)
    ensures Count(xs, matches) > 0 <==> exists x :: x in xs && matches(x)
  {
    if xs == [] {
    } else {
      var init, last := xs[..|xs| - 1], xs[|xs| - 1];
      assert xs == init + [last];
      CountPositive(init, matches);
    }
  }

  lemma FactorsPositive(a: nat, b: nat)
    ensures a * b > 0 <==> a > 0 && b > 0
  {
  }

  /** A contact is returned at all exactly when it has every membership asked for. */
  lemma MultiplicityIsMembership(db: Database, req: Request, segmentIds: Option<seq<string>>, c: Contact)
    ensures Multiplicity(db, req, segmentIds, c) > 0 <==> c in db.contacts && Satisfies(db, req, segmentIds, c)
  {
    var t := if req.tagId.Some? then Partners(db, JoinTag, Str(req.tagId.value), c) else 1;
    var g := if req.groupId.Some? then Partners(db, JoinGroup, Str(req.groupId.value), c) else 1;
    var s := if segmentIds.Some? then Partners(db, JoinSegment, Ids(segmentIds.value), c) else 1;
    var n := multiset(db.contacts)[c];
    assert t > 0 <==> HasTag(db, req, c) by {
      if req.tagId.Some? {
        CountPositive(db.pivots,
          (p: Pivot) => p.entityId == c.id && p.entityType == "contact" && p.tagId == req.tagId.value);
      }
    }
    assert g > 0 <==> InGroup(db, req, c) by {
      if req.groupId.Some? {
        CountPositive(db.groupPivots, (p: (string, string)) => p.0 == c.id && p.1 == req.groupId.value);
      }
    }
    assert s > 0 <==> InSegment(segmentIds, c) by {
      if segmentIds.Some? { CountPositive(segmentIds.value, id => id == c.id); }
    }
    FactorsPositive(n, t);
    FactorsPositive(n * t, g);
    FactorsPositive(n * t * g, s);
  }

  /**
    An assumption, not a promise of the schema, which knows no tag column and lets a
    segment's stored query repeat a contact: no contact, pivot row or segment member
    occurs twice.
   */
  predicate NoRepeats(db: Database, segmentIds: Option<seq<string>>) {
    && Distinct(db.contacts) && Distinct(db.pivots) && Distinct(db.groupPivots)
    && (segmentIds.Some? ==> Distinct(segmentIds.value))
  }

  lemma {:induction false} CountDistinct<T>(xs: seq<T>, matches: T -> bool, x: T)
    requires Distinct(xs) && forall y :: y in xs && matches(y) ==> y == x
    ensures Count(xs, matches) <= if x in xs then 1 else 0
  {
    if xs == [] {
    } else {
      var init, last := xs[..|xs| - 1], xs[|xs| - 1];
      assert xs == init + [last];
      CountDistinct(init, matches, x);
      assert last !in init;
    }
  }

  lemma FactorsAtMostOne(a: nat, b: nat)
    requires a <= 1 && b <= 1
    ensures a * b <= 1
  {
  }

  /** Without repeats in the tables no contact is returned twice. */
  lemma NoContactTwice(db: Database, req: Request, segmentIds: Option<seq<string>>, c: Contact)
    requires NoRepeats(db, segmentIds)
    ensures Multiplicity(db, req, segmentIds, c) <= 1
  {
    var t := if req.tagId.Some? then Partners(db, JoinTag, Str(req.tagId.value), c) else 1;
    var g := if req.groupId.Some? then Partners(db, JoinGroup, Str(req.groupId.value), c) else 1;
    var s := if segmentIds.Some? then Partners(db, JoinSegment, Ids(segmentIds.value), c) else 1;
    var n := multiset(db.contacts)[c];
    if req.tagId.Some? {
      CountDistinct(db.pivots,
        (p: Pivot) => p.entityId == c.id && p.entityType == "contact" && p.tagId == req.tagId.value,
        Pivot("contact", c.id, req.tagId.value));
    }
    if req.groupId.Some? {
      CountDistinct(db.groupPivots, (p: (string, string)) => p.0 == c.id && p.1 == req.groupId.value,
                    (c.id, req.groupId.value));
    }
    if segmentIds.Some? { CountDistinct(segmentIds.value, id => id == c.id, c.id); }
    DistinctOnce(db.contacts, c);
    FactorsAtMostOne(n, t);
    FactorsAtMostOne(n * t, g);
    FactorsAtMostOne(n * t * g, s);
  }

  /**
    The rows returned, for any database: a window of a list ordered by email that
    holds exactly the contacts with all the memberships asked for, each as often as
    its rows in the joined tables multiply to, so once each exactly when no contact
    multiplies to more.
   */
  lemma FilterIsConjunction(db: Database, req: Request, segmentIds: Option<seq<string>>, q: Query, out: seq<Contact>)
    requires Means(req, segmentIds, q) && Answers(db, q, out)
    ensures exists rows: seq<Contact> ::
              && ByEmail(rows) && out == Window(rows, req.limit, req.offset)
              && (forall c :: c in rows <==> c in db.contacts && Satisfies(db, req, segmentIds, c))
              && (forall c :: multiset(rows)[c] == Multiplicity(db, req, segmentIds, c))
              && (Distinct(rows) <==> forall c :: Multiplicity(db, req, segmentIds, c) <= 1)
  {
    hide Satisfies, Multiplicity, ByEmail;
    var rows: seq<Contact> :|
      && multiset(rows) == multiset(AllJoined(db, q, |q.joins|)) && ByEmail(rows)
      && out == Window(rows, q.binds[|q.joins|].n, q.binds[|q.joins| + 1].n);
    assert forall c :: multiset(rows)[c] == Multiplicity(db, req, segmentIds, c);
    forall c ensures c in rows <==> c in db.contacts && Satisfies(db, req, segmentIds, c) {
      MultiplicityIsMembership(db, req, segmentIds, c);
      assert c in rows <==> multiset(rows)[c] > 0;
    }
    DistinctIff(rows);
    assert (forall c :: multiset(rows)[c] <= 1) <==> forall c :: Multiplicity(db, req, segmentIds, c) <= 1;
  }

  /**
    Corollary at one schema.  As migrated, `entity_pivots` has no column `tag_id`, so a
    query is refused exactly when a tag is asked for.
   */
  lemma TagFilterNeedsColumn(db: Database, req: Request, segmentIds: Option<seq<string>>, q: Query)
    requires Means(req, segmentIds, q) && db.pivotColumns == MIGRATED_PIVOT_COLUMNS
    ensures Prepares(db, q) <==> req.tagId.None?
    ensures req.tagId.Some? ==> forall out :: !Answers(db, q, out)
  {
    assert "tag_id" !in MIGRATED_PIVOT_COLUMNS by {
      assert |"tag_id"| == 6;
      assert "tag_id"[0] == 't';
    }
  }
}
