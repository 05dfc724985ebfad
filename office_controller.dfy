/**
 * OfficeController: the public office listing and detail queries, and the
 * create and update actions on an office and its tags.
 */
module OfficeController {
  import opened Domain

  /** The page size passed to paginate. */
  const PerPage: nat := 20

  /**
   * The filters of GET /offices: the 'user_id' and 'visitor_id' query
   * parameters ('lat' and 'lng' are not part of this model).
   */
  datatype Filters = Filters(userId: Option<int>, visitorId: Option<int>)

  /** An office as listed: the row and its count of active reservations. */
  datatype Listing = Listing(office: Office, reservationsCount: nat)

  /** `when(request(...))` applies its filter only to a truthy value: absent and 0 are not. */
  predicate Given(p: Option<int>) {
    p.Some? && p.value != 0
  }

  /** whereRelation('reservations', 'user_id', '=', visitor): any status counts. */
  predicate HasReservationBy(rs: seq<Reservation>, officeId: OfficeId, visitor: int) {
    exists i :: 0 <= i < |rs| && rs[i].officeId == officeId && rs[i].userId == visitor
  }

  /** The where-clauses of the listing query, for one office. */
  predicate Selected(o: Office, rs: seq<Reservation>, q: Filters) {
    && o.approvalStatus == Approved
    && !o.hidden
    && (Given(q.userId) ==> o.userId == q.userId.value)
    && (Given(q.visitorId) ==> HasReservationBy(rs, o.id, q.visitorId.value))
  }

  /** The rows that pass the where-clauses, in table order. */
  function Matching(offices: seq<Office>, rs: seq<Reservation>, q: Filters): (r: seq<Office>)
    ensures forall o :: o in r <==> o in offices && Selected(o, rs, q)
    decreases |offices|
  {
    if |offices| == 0 then []
    else
      var n := |offices| - 1;
      var rest := Matching(offices[..n], rs, q);
      assert offices == offices[..n] + [offices[n]];
      if Selected(offices[n], rs, q) then rest + [offices[n]] else rest
  }

  /** Filtering keeps table order, so the listing is in ascending id order. */
  lemma {:induction false} MatchingAscending(offices: seq<Office>, rs: seq<Reservation>, q: Filters)
    requires Ascending(offices)
    ensures Ascending(Matching(offices, rs, q))
    decreases |offices|
  {
    if |offices| > 0 {
      var n := |offices| - 1;
      var rest := Matching(offices[..n], rs, q);
      MatchingAscending(offices[..n], rs, q);
      forall o | o in rest ensures o.id < offices[n].id {
        assert o in offices[..n];
      }
    }
  }

  /** withCount of the reservations whose status is active. */
  function ActiveCount(rs: seq<Reservation>, officeId: OfficeId): (n: nat)
    ensures n <= |rs|
    decreases |rs|
  {
    if |rs| == 0 then 0
    else
      var last := rs[|rs| - 1];
      ActiveCount(rs[..|rs| - 1], officeId) + if last.officeId == officeId && last.status == Active then 1 else 0
  }

  /** The positions of an office's active reservations. */
  function ActiveReservations(rs: seq<Reservation>, officeId: OfficeId): set<nat> {
    set i: nat | i < |rs| && rs[i].officeId == officeId && rs[i].status == Active
  }

  /** The count is the number of active reservations of that office, no more, no fewer. */
  lemma {:induction false} ActiveCountCounts(rs: seq<Reservation>, officeId: OfficeId)
    ensures ActiveCount(rs, officeId) == |ActiveReservations(rs, officeId)|
    decreases |rs|
  {
    if |rs| > 0 {
      var n := |rs| - 1;
      ActiveCountCounts(rs[..n], officeId);
      var before := ActiveReservations(rs[..n], officeId);
      if rs[n].officeId == officeId && rs[n].status == Active {
        assert ActiveReservations(rs, officeId) == before + {n};
      } else {
        assert ActiveReservations(rs, officeId) == before;
      }
    }
  }

  /** The page the paginator serves: a request below 1 gets page 1. */
  function CurrentPage(requested: int): (p: nat)
    ensures p >= 1
    ensures requested >= 1 ==> p == requested
    ensures requested < 1 ==> p == 1
  {
    if requested >= 1 then requested else 1
  }

  /** Page `page` (counted from 1) of `xs`, PerPage items to a page. */
  function Page<T>(xs: seq<T>, page: nat): (r: seq<T>)
    requires page >= 1
    ensures |r| <= PerPage
    ensures forall k :: 0 <= k < |r| ==> (page - 1) * PerPage + k < |xs| && r[k] == xs[(page - 1) * PerPage + k]
  {
    var lo := if (page - 1) * PerPage <= |xs| then (page - 1) * PerPage else |xs|;
    var hi := if page * PerPage <= |xs| then page * PerPage else |xs|;
    xs[lo..hi]
  }

  /** Every item is on the page its position says. */
  lemma PageHolds<T>(xs: seq<T>, i: nat)
    requires i < |xs|
    ensures i % PerPage < |Page(xs, i / PerPage + 1)|
    ensures Page(xs, i / PerPage + 1)[i % PerPage] == xs[i]
  {
  }

  /** An item on page p sits at a position whose page number is p. */
  lemma PagePosition<T>(xs: seq<T>, page: nat, x: T) returns (i: nat)
    requires page >= 1 && x in Page(xs, page)
    ensures i < |xs| && xs[i] == x && i / PerPage + 1 == page
  {
    var k :| 0 <= k < |Page(xs, page)| && Page(xs, page)[k] == x;
    i := (page - 1) * PerPage + k;
  }

  /** Every matching office, annotated with its active-reservation count, in table order. */
  function Results(db: Db, q: Filters): (r: seq<Listing>)
    ensures |r| == |Matching(db.offices, db.reservations, q)|
  {
    var matching := Matching(db.offices, db.reservations, q);
    seq(|matching|, i requires 0 <= i < |matching| => Listing(matching[i], ActiveCount(db.reservations, matching[i].id)))
  }

  /** Slot k of a page of results is the matching office at position (page - 1) * PerPage + k. */
  lemma ResultsPage(db: Db, q: Filters, page: nat)
    requires page >= 1
    ensures var matching, r := Matching(db.offices, db.reservations, q), Page(Results(db, q), page);
      forall k :: 0 <= k < |r| ==>
        && (page - 1) * PerPage + k < |matching|
        && r[k] == Listing(matching[(page - 1) * PerPage + k], ActiveCount(db.reservations, matching[(page - 1) * PerPage + k].id))
  {
  }

  /** GET /offices with the given filters and 'page' parameter. */
  function Index(db: Db, q: Filters, page: int): (r: seq<Listing>)
    ensures |r| <= PerPage
    ensures forall l :: l in r ==> l.office in db.offices && l.office.approvalStatus == Approved && !l.office.hidden
    ensures Given(q.userId) ==> forall l :: l in r ==> l.office.userId == q.userId.value
    ensures Given(q.visitorId) ==> forall l :: l in r ==> HasReservationBy(db.reservations, l.office.id, q.visitorId.value)
    ensures forall l :: l in r ==> l.reservationsCount == ActiveCount(db.reservations, l.office.id)
    ensures Valid(db) ==> forall i, j :: 0 <= i < j < |r| ==> r[i].office.id < r[j].office.id
  {
    var all := Results(db, q);
    var matching := Matching(db.offices, db.reservations, q);
    var r := Page(all, CurrentPage(page));
    assert Valid(db) ==> Ascending(matching) by {
      if Valid(db) { MatchingAscending(db.offices, db.reservations, q); }
    }
    ResultsPage(db, q, CurrentPage(page));
    forall l | l in r ensures l.office in matching {
      var k :| 0 <= k < |r| && r[k] == l;
    }
    r
  }

  /**
   * Every office that passes the filters is listed, with its count, on
   * some page of the listing.
   */
  lemma {:induction false} IndexComplete(db: Db, q: Filters, o: Office)
    requires o in db.offices && Selected(o, db.reservations, q)
    ensures exists page: nat :: page >= 1 && Listing(o, ActiveCount(db.reservations, o.id)) in Index(db, q, page)
  {
    var matching := Matching(db.offices, db.reservations, q);
    var all := Results(db, q);
    var i :| 0 <= i < |matching| && matching[i] == o;
    PageHolds(all, i);
    var page := i / PerPage + 1;
    assert Index(db, q, page) == Page(all, page);
    assert Page(all, page)[i % PerPage] == Listing(o, ActiveCount(db.reservations, o.id));
  }

  /** An office is listed on one page only: two requests that list it ask for the same page. */
  lemma {:induction false} IndexOnOnePage(db: Db, q: Filters, id: OfficeId, p1: int, p2: int)
    requires Valid(db)
    requires exists k :: 0 <= k < |Index(db, q, p1)| && Index(db, q, p1)[k].office.id == id
    requires exists k :: 0 <= k < |Index(db, q, p2)| && Index(db, q, p2)[k].office.id == id
    ensures CurrentPage(p1) == CurrentPage(p2)
  {
    MatchingAscending(db.offices, db.reservations, q);
    var i1 := PositionOf(db, q, id, p1);
    var i2 := PositionOf(db, q, id, p2);
  }

  /** Where on its page a listed office sits, as a position in the full result. */
  lemma PositionOf(db: Db, q: Filters, id: OfficeId, p: int) returns (i: nat)
    requires exists k :: 0 <= k < |Index(db, q, p)| && Index(db, q, p)[k].office.id == id
    ensures i < |Matching(db.offices, db.reservations, q)|
    ensures Matching(db.offices, db.reservations, q)[i].id == id
    ensures i / PerPage + 1 == CurrentPage(p)
  {
    var all := Results(db, q);
    var page := CurrentPage(p);
    var k :| 0 <= k < |Page(all, page)| && Page(all, page)[k].office.id == id;
    i := PagePosition(all, page, Page(all, page)[k]);
  }

  /** Pages come in order: every office on an earlier page has a smaller id than any on a later page. */
  lemma {:induction false} IndexPagesInOrder(db: Db, q: Filters, p1: int, p2: int, k1: nat, k2: nat)
    requires Valid(db) && CurrentPage(p1) < CurrentPage(p2)
    requires k1 < |Index(db, q, p1)| && k2 < |Index(db, q, p2)|
    ensures Index(db, q, p1)[k1].office.id < Index(db, q, p2)[k2].office.id
  {
    MatchingAscending(db.offices, db.reservations, q);
    var i1 := PositionOf(db, q, Index(db, q, p1)[k1].office.id, p1);
    var i2 := PositionOf(db, q, Index(db, q, p2)[k2].office.id, p2);
  }

  /** GET /offices/{office}: any office, listed or not, with its active count. */
  function Show(db: Db, officeId: OfficeId): (r: Result<Listing>)
    ensures r.Ok? <==> exists i :: 0 <= i < |db.offices| && db.offices[i].id == officeId
    ensures r.Err? ==> r.error == NotFound
    ensures r.Ok? ==>
      && r.value.office in db.offices && r.value.office.id == officeId
      && r.value.reservationsCount == ActiveCount(db.reservations, officeId)
  {
    match Find(db.offices, officeId)
    case None => Err(NotFound)
    case Some(i) => Ok(Listing(db.offices[i], ActiveCount(db.reservations, officeId)))
  }

  /** The listing and the detail view report the same office with the same count. */
  lemma IndexAgreesWithShow(db: Db, q: Filters, page: int, k: nat)
    requires Valid(db) && k < |Index(db, q, page)|
    ensures Show(db, Index(db, q, page)[k].office.id) == Ok(Index(db, q, page)[k])
  {
    var l := Index(db, q, page)[k];
    var i :| 0 <= i < |db.offices| && db.offices[i] == l.office;
    FindRow(db.offices, i);
  }

  /**
   * The validated request attributes: each column is present or not;
   * `featuredImageId` may be present and null. `details` holds the plain
   * columns only: the keys 'tags', 'user_id', 'approval_status', 'hidden'
   * and 'featured_image_id' are carried by the typed fields, so 'tags' is
   * never written as a column.
   */
  datatype Attributes = Attributes(
    userId: Option<UserId>,
    approvalStatus: Option<ApprovalStatus>,
    hidden: Option<bool>,
    featuredImageId: Option<Option<ImageId>>,
    details: map<string, string>,
    tags: Option<set<TagId>>)

  /** What the office validator answers: the attributes, or a failing field. */
  datatype Validation = Accepted(attributes: Attributes) | Rejected(field: string)

  /** A new, unsaved office row with the column defaults. */
  function Blank(id: OfficeId): Office {
    Office(id, 0, Pending, false, None, map[], {})
  }

  /** `fill`/`update` with every attribute except 'tags'. */
  function Fill(o: Office, a: Attributes): Office {
    o.(userId := a.userId.GetOr(o.userId),
       approvalStatus := a.approvalStatus.GetOr(o.approvalStatus),
       hidden := a.hidden.GetOr(o.hidden),
       featuredImageId := a.featuredImageId.GetOr(o.featuredImageId),
       details := o.details + a.details)
  }

  /** POST /offices. `canCreate` is the token's 'office.create' ability. */
  function CreateOffice(db: Db, requester: UserId, canCreate: bool, validation: Validation): (r: Effect<Office>)
    requires Valid(db)
    ensures Valid(r.db)
    ensures !canCreate ==> r.result == Err(Forbidden)
    ensures canCreate && validation.Rejected? ==> r.result == Err(Unprocessable(validation.field, RuleFailed))
    ensures r.result.Ok? <==> canCreate && validation.Accepted?
    ensures r.result.Err? ==> r.db == db
    ensures r.result.Ok? ==>
      var o, a := r.result.value, validation.attributes;
      && o.approvalStatus == Pending && o.userId == requester
      && o.tags == (if a.tags.Some? then a.tags.value else {})
      && o.hidden == a.hidden.GetOr(false)
      && o.featuredImageId == a.featuredImageId.GetOr(None)
      && o.details == a.details
      && Find(db.offices, o.id).None?
      && r.db == db.(offices := db.offices + [o], nextOfficeId := db.nextOfficeId + 1)
  {
    if !canCreate then Effect(Err(Forbidden), db)
    else if validation.Rejected? then Effect(Err(Unprocessable(validation.field, RuleFailed)), db)
    else
      var a := validation.attributes.(approvalStatus := Some(Pending), userId := Some(requester));
      var saved := Fill(Blank(db.nextOfficeId), a);
      var o := if a.tags.Some? then saved.(tags := a.tags.value) else saved;
      Effect(Ok(o), db.(offices := db.offices + [o], nextOfficeId := db.nextOfficeId + 1))
  }

  /** A created office can be shown at once and has no active reservations. */
  lemma {:induction false} CreateThenShow(db: Db, requester: UserId, validation: Validation)
    requires Valid(db) && validation.Accepted?
    ensures
      var created := CreateOffice(db, requester, true, validation);
      Show(created.db, created.result.value.id) == Ok(Listing(created.result.value, 0))
  {
    var created := CreateOffice(db, requester, true, validation);
    var o := created.result.value;
    FindRow(created.db.offices, |db.offices|);
    ActiveCountCounts(db.reservations, o.id);
    assert ActiveReservations(db.reservations, o.id) == {};
  }

  /** A created office is pending, so no listing shows it, whatever the filters. */
  lemma CreatedOfficeNotListed(db: Db, requester: UserId, validation: Validation, q: Filters, page: int)
    requires Valid(db) && validation.Accepted?
    ensures
      var created := CreateOffice(db, requester, true, validation);
      forall l :: l in Index(created.db, q, page) ==> l.office.id != created.result.value.id
  {
  }

  /** PUT /offices/{office}. `canUpdate` is the token's ability, `authorized` the policy outcome. */
  function UpdateOffice(db: Db, officeId: OfficeId, canUpdate: bool, authorized: bool, validation: Validation)
    : (r: Effect<Office>)
    requires Valid(db)
    ensures Valid(r.db)
    ensures Find(db.offices, officeId).None? ==> r.result == Err(NotFound)
    ensures Find(db.offices, officeId).Some? && (!canUpdate || !authorized) ==> r.result == Err(Forbidden)
    ensures (Find(db.offices, officeId).Some? && canUpdate && authorized && validation.Rejected?)
            ==> r.result == Err(Unprocessable(validation.field, RuleFailed))
    ensures r.result.Ok? <==> Find(db.offices, officeId).Some? && canUpdate && authorized && validation.Accepted?
    ensures r.result.Err? ==> r.db == db
    ensures r.result.Ok? ==>
      var i := Find(db.offices, officeId).value;
      var before, o, a := db.offices[i], r.result.value, validation.attributes;
      && o.id == officeId
      && o.tags == (if a.tags.Some? then a.tags.value else before.tags)
      && o.userId == a.userId.GetOr(before.userId)
      && o.approvalStatus == a.approvalStatus.GetOr(before.approvalStatus)
      && o.hidden == a.hidden.GetOr(before.hidden)
      && o.featuredImageId == a.featuredImageId.GetOr(before.featuredImageId)
      && (forall c :: c in o.details <==> c in before.details || c in a.details)
      && (forall c :: c in a.details ==> o.details[c] == a.details[c])
      && (forall c :: c in before.details && c !in a.details ==> o.details[c] == before.details[c])
      && r.db == db.(offices := db.offices[i := o])
  {
    match Find(db.offices, officeId)
    case None => Effect(Err(NotFound), db)
    case Some(i) =>
      if !canUpdate || !authorized then Effect(Err(Forbidden), db)
      else if validation.Rejected? then Effect(Err(Unprocessable(validation.field, RuleFailed)), db)
      else
        var a := validation.attributes;
        var saved := Fill(db.offices[i], a);
        var o := if a.tags.Some? then saved.(tags := a.tags.value) else saved;
        Effect(Ok(o), db.(offices := db.offices[i := o]))
  }

  /** Sending the same update twice leaves the office as the first one did. */
  lemma {:induction false} UpdateIdempotent(db: Db, officeId: OfficeId, canUpdate: bool, authorized: bool,
                                            validation: Validation)
    requires Valid(db)
    ensures
      var first := UpdateOffice(db, officeId, canUpdate, authorized, validation);
      UpdateOffice(first.db, officeId, canUpdate, authorized, validation) == first
  {
    var first := UpdateOffice(db, officeId, canUpdate, authorized, validation);
    if first.result.Ok? {
      var i := Find(db.offices, officeId).value;
      FindRow(first.db.offices, i);
      var o, a := first.result.value, validation.attributes;
      assert o.details + a.details == o.details;
    }
  }

  /**
   * Whatever the second request's ability and policy answer, repeating an
   * update that succeeded leaves the store as the first one left it.
   */
  lemma {:induction false} UpdateRepeatKeepsStore(db: Db, officeId: OfficeId, c1: bool, a1: bool, c2: bool, a2: bool,
                                                  validation: Validation)
    requires Valid(db) && UpdateOffice(db, officeId, c1, a1, validation).result.Ok?
    ensures
      var first := UpdateOffice(db, officeId, c1, a1, validation);
      UpdateOffice(first.db, officeId, c2, a2, validation).db == first.db
  {
    var first := UpdateOffice(db, officeId, c1, a1, validation);
    if c2 && a2 {
      UpdateIdempotent(db, officeId, c1, a1, validation);
    }
  }

  /** The controller action on the live database. */
  method Create(store: Database, requester: UserId, canCreate: bool, validation: Validation)
    returns (r: Result<Office>)
    requires Valid(store.State())
    modifies store
    ensures Valid(store.State())
    ensures Effect(r, store.State()) == CreateOffice(old(store.State()), requester, canCreate, validation)
  {
    if !canCreate {
      return Err(Forbidden);
    }
    if validation.Rejected? {
      return Err(Unprocessable(validation.field, RuleFailed));
    }
    var attributes := validation.attributes;
    attributes := attributes.(approvalStatus := Some(Pending));
    attributes := attributes.(userId := Some(requester));
    var office := Fill(Blank(store.nextOfficeId), attributes);
    store.offices := store.offices + [office];
    store.nextOfficeId := store.nextOfficeId + 1;
    if attributes.tags.Some? {
      office := office.(tags := attributes.tags.value);
      store.offices := store.offices[|store.offices| - 1 := office];
    }
    r := Ok(office);
  }

  /** The controller action on the live database. */
  method Update(store: Database, officeId: OfficeId, canUpdate: bool, authorized: bool, validation: Validation)
    returns (r: Result<Office>)
    requires Valid(store.State())
    modifies store
    ensures Valid(store.State())
    ensures Effect(r, store.State()) == UpdateOffice(old(store.State()), officeId, canUpdate, authorized, validation)
  {
    var found := Find(store.offices, officeId);
    if found.None? {
      return Err(NotFound);
    }
    if !canUpdate {
      return Err(Forbidden);
    }
    if !authorized {
      return Err(Forbidden);
    }
    if validation.Rejected? {
      return Err(Unprocessable(validation.field, RuleFailed));
    }
    var i := found.value;
    var attributes := validation.attributes;
    var office := Fill(store.offices[i], attributes);
    store.offices := store.offices[i := office];
    if attributes.tags.Some? {
      office := office.(tags := attributes.tags.value);
      store.offices := store.offices[i := office];
    }
    r := Ok(office);
  }
}
