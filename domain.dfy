/**
 * The store the office and office-image controllers work on: offices,
 * polymorphic images, reservations and the set of paths held by file
 * storage, together with the error kinds the controllers answer with.
 */
module Domain {

  datatype Option<+T> = None | Some(value: T) {
    function GetOr(default: T): T {
      if Some? then value else default
    }
  }

  /** The morph-map tags of an image's owner: 'office' and 'user'. */
  datatype ResourceType = OfficeType | UserType

  /** Office::APPROVAL_PENDING, APPROVAL_APPROVED and the rejected state. */
  datatype ApprovalStatus = Pending | Approved | Rejected

  /** Reservation::STATUS_ACTIVE and the two closed states. */
  datatype ReservationStatus = Active | Cancelled | Completed

  type OfficeId = nat
  type ImageId = nat
  type UserId = nat
  type TagId = nat
  type Path = string

  /**
   * An office row. `details` holds the plain columns (title, description,
   * address, coordinates, prices) by name; `tags` is the office_tag relation.
   */
  datatype Office = Office(
    id: OfficeId,
    userId: UserId,
    approvalStatus: ApprovalStatus,
    hidden: bool,
    featuredImageId: Option<ImageId>,
    details: map<string, string>,
    tags: set<TagId>)

  datatype Image = Image(id: ImageId, resourceType: ResourceType, resourceId: nat, path: Path)

  datatype Reservation = Reservation(officeId: OfficeId, userId: UserId, status: ReservationStatus)

  /**
   * The whole store as a value. Offices are kept in primary-key order;
   * `nextOfficeId` and `nextImageId` are the auto-increment counters.
   */
  datatype Db = Db(
    offices: seq<Office>,
    images: map<ImageId, Image>,
    reservations: seq<Reservation>,
    files: set<Path>,
    nextOfficeId: OfficeId,
    nextImageId: ImageId)

  /** Ids strictly increase along the table, so each id occurs at most once. */
  predicate Ascending(offices: seq<Office>) {
    forall i, j :: 0 <= i < j < |offices| ==> offices[i].id < offices[j].id
  }

  /**
   * What the database keeps true between requests. Image ids start at 1,
   * as auto-increment keys do, so PHP's loose `null == 0` in the featured
   * image check never matches an existing image.
   */
  predicate Valid(db: Db) {
    && Ascending(db.offices)
    && (forall i :: 0 <= i < |db.offices| ==> db.offices[i].id < db.nextOfficeId)
    && db.nextImageId >= 1
    && (forall k :: k in db.images ==> db.images[k].id == k && 1 <= k < db.nextImageId)
    && (forall i :: 0 <= i < |db.reservations| ==> db.reservations[i].officeId < db.nextOfficeId)
  }

  /** Primary-key lookup of an office, as route-model binding does it. */
  function Find(offices: seq<Office>, id: OfficeId): (r: Option<nat>)
    ensures r.Some? ==> r.value < |offices| && offices[r.value].id == id
    ensures r.None? ==> forall i :: 0 <= i < |offices| ==> offices[i].id != id
    decreases |offices|
  {
    if |offices| == 0 then None
    else if offices[|offices| - 1].id == id then Some(|offices| - 1)
    else Find(offices[..|offices| - 1], id)
  }

  /** In a table with unique ids, looking up a row's id finds that row. */
  lemma FindRow(offices: seq<Office>, i: nat)
    requires Ascending(offices) && i < |offices|
    ensures Find(offices, offices[i].id) == Some(i)
  {
  }

  /** The images whose polymorphic owner is the given office. */
  function OfficeImages(db: Db, officeId: OfficeId): set<ImageId> {
    set k | k in db.images && Owns(officeId, db.images[k])
  }

  predicate Owns(officeId: OfficeId, image: Image) {
    image.resourceType == OfficeType && image.resourceId == officeId
  }

  /** Messages the controllers attach to the 'image' field. */
  datatype Reason = RuleFailed | CannotDeleteThisImage | CannotDeleteOnlyImage | CannotDeleteFeaturedImage

  function Message(reason: Reason): Option<string> {
    match reason
    case RuleFailed => None
    case CannotDeleteThisImage => Some("Cannot delete this image.")
    case CannotDeleteOnlyImage => Some("Cannot delete the only image.")
    case CannotDeleteFeaturedImage => Some("Cannot delete the featured image.")
  }

  /**
   * NotFound: route-model binding found no row. Forbidden: a token ability
   * or a policy said no. Unprocessable: a validation error on one field.
   * ServerError: an uncaught fault.
   */
  datatype Error = NotFound | Forbidden | Unprocessable(field: string, reason: Reason) | ServerError

  function Status(e: Error): int {
    match e
    case NotFound => 404
    case Forbidden => 403
    case Unprocessable(_, _) => 422
    case ServerError => 500
  }

  datatype Result<+T> = Ok(value: T) | Err(error: Error)

  /** What a request answers and the store it leaves behind. */
  datatype Effect<+T> = Effect(result: Result<T>, db: Db)

  /** The database itself, updated in place by the controllers. */
  class Database {
    var offices: seq<Office>
    var images: map<ImageId, Image>
    var reservations: seq<Reservation>
    var files: set<Path>
    var nextOfficeId: OfficeId
    var nextImageId: ImageId

    function State(): Db
      reads this
    {
      Db(offices, images, reservations, files, nextOfficeId, nextImageId)
    }
  }
}
