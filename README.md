# Office and office-image controllers of a coworking marketplace, in Dafny

This project models the bookkeeping done by the two API controllers of the
Ergodnc backend, `OfficeController` and `OfficeImageController`, over an
in-memory store:

- offices, each with an owner, an approval status, a hidden flag, an
  optional featured image, plain columns and a tag set;
- images, each owned polymorphically by an office or a user. The morph-map
  tags `'office'` and `'user'` are the enum `ResourceType`;
- reservations, each with an office, a visitor and a status;
- the set of paths held by file storage.

`domain.dfy` (module `Domain`) holds the entities and the store as a value
(`Db`). It also holds the store's standing invariant `Valid`:

- offices are kept in primary-key order, with strictly ascending ids;
- image keys match image ids, and image ids start at 1 like auto-increment
  keys. So PHP's loose `null == 0` in the featured-image check never matches
  an existing image;
- both auto-increment counters stay ahead of every id in use.

The live database is the class `Database`. It has one field per table, and
the controller methods update those fields in place.

Each controller action appears twice:

- A pure function over `Db` (`StoreImage`, `DeleteImage`, `CreateOffice`,
  `UpdateOffice`) returns an `Effect`: the response plus the store left
  behind. Its contract and the lemmas beside it state what the source
  promises.
- A method on the `Database` (`Store`, `Delete`, `Create`, `Update`)
  performs the same steps in place, in the source's order. Its `ensures`
  ties the result and the new state to that function.

The read-only queries `Index` and `Show` are functions.

Outside inputs are parameters:

- the token abilities (`tokenCan`) are booleans;
- the outcome of the policy check (`authorize`) is a boolean;
- the result of the office validator is a `Validation`;
- the uploaded file's kind, guessed extension and size are an `Upload`;
- the name that file storage picks for an upload is a `Path`;
- the authenticated user id is a parameter.

Errors are `NotFound` (404, route-model binding found no row), `Forbidden`
(403), `Unprocessable(field, reason)` (422) and `ServerError` (500). The
reasons carry the controller's exact messages:

- "Cannot delete this image."
- "Cannot delete the only image."
- "Cannot delete the featured image."

Behaviour of the code worth knowing:

- `index` has no owner override. Even with `user_id` equal to the
  requester, only approved, non-hidden offices are listed
  (`CreatedOfficeNotListed`).
- Without coordinates, `index` orders by ascending id, not newest first.
  `orderBy('id', 'ASC')` comes before `latest('id')`, and the second key
  never decides between unique ids. In the model the office table is kept
  in id order and filtering keeps that order (`MatchingAscending`).
- `update` does not reset the approval status and notifies nobody. It
  writes exactly the validated attributes.
- Deleting an image that belongs to another resource is answered in the
  controller with a 422 error on `image`, "Cannot delete this image.". The
  feature test for that case expects a 404. The route does not scope the
  image binding to the office, so the code shown answers 422; the test's 404
  comes from code that is not part of this model. The model follows the
  controller.
- The upload rule for `image` does not include `required`. A request without
  a file therefore passes validation, and storing the missing file fails as
  a server error. The model returns `ServerError` for that case.
- `request('user_id')` and `request('visitor_id')` filter only when truthy.
  An absent parameter or `0` applies no filter (`Given`).

## Model

| member | source | states |
|---|---|---|
| `Domain.Find` | routes/api.php:12 | route-model binding of `{office}`: a hit is a row with that id, a miss means no row has it |
| `OfficeImageController.StoreImage` | app/Http/Controllers/OfficeImageController.php:16-36 | succeeds exactly when the office exists, the token has `office.update`, the policy allows, and a file meets the upload rules (`Acceptable`: a jpg/png file of at most 5000 KB); a missing office is 404; a missing ability or a policy refusal is 403; a rejected file is 422 on `image`; no file at all is a server error; on failure the store is unchanged; on success exactly one new image is added, owned by this office with the stored path, existing images are unchanged, the path joins storage, and the invariant is kept |
| `OfficeImageController.DeleteImage` | app/Http/Controllers/OfficeImageController.php:38-65 | a missing office or image is 404; a missing `office.delete` ability or a policy refusal is 403 before any guard; then, in order, an image not owned by the office gets "Cannot delete this image.", an office's only image gets "Cannot delete the only image.", and the featured image gets "Cannot delete the featured image.", each on `image`; succeeds exactly when the image is the office's, the office has at least two images and it is not the featured one; any failure leaves the store unchanged; success removes exactly that row and its stored path and nothing else; afterwards the office still has an image and its featured image still exists |
| `OfficeImageController.ForeignImageRefused` | app/Http/Controllers/OfficeImageController.php:47-50 | an image whose owner type is not office, or whose owner id is not this office, is refused with "Cannot delete this image." and no change |
| `OfficeImageController.DeleteRefusalMessages` | app/Http/Controllers/OfficeImageController.php:47-60 | every guard refusal is a 422 on the `image` field carrying one of the three messages of the source |
| `OfficeImageController.SoleFeaturedImageIsOnlyImage` | app/Http/Controllers/OfficeImageController.php:47-60 | guard order: the sole image that is also featured is refused with "Cannot delete the only image." |
| `OfficeImageController.DeletesSecondImage` | app/Http/Controllers/OfficeImageController.php:62-64 | of an office with two images, a non-featured one is deleted: its row and its file go, and nothing else changes |
| `OfficeImageController.StoreThenDelete` | app/Http/Controllers/OfficeImageController.php:29-64 | storing an acceptable image under a path not already in storage, into an office that has one image or more and whose featured image, if set, exists, and then deleting it again gives back the original store, apart from the id counter |
| `OfficeImageController.Store` | app/Http/Controllers/OfficeImageController.php:16-36 | the in-place action: result and new database state are those of `StoreImage`, and the invariant is kept |
| `OfficeImageController.Delete` | app/Http/Controllers/OfficeImageController.php:38-65 | the in-place action, with the checks in source order: result and new database state are those of `DeleteImage` |
| `OfficeController.Matching` | app/Http/Controllers/OfficeController.php:25-32 | an office is kept exactly when it is in the table, approved, not hidden, owned by `user_id` when that is given, and reserved (any status) by `visitor_id` when that is given; a parameter counts as given when it is present and not 0 (`Given`, the truthiness test of `when`) |
| `OfficeController.MatchingAscending` | app/Http/Controllers/OfficeController.php:33-37 | the filtered rows stay in ascending id order |
| `OfficeController.ActiveCount` | app/Http/Controllers/OfficeController.php:39 | the active-reservation count never exceeds the number of reservations |
| `OfficeController.ActiveCountCounts` | app/Http/Controllers/OfficeController.php:39 | the count equals the number of that office's reservations whose status is active |
| `OfficeController.CurrentPage` | app/Http/Controllers/OfficeController.php:40 | the paginator serves the requested page when it is at least 1, and page 1 otherwise |
| `OfficeController.Page` | app/Http/Controllers/OfficeController.php:40 | a page holds at most 20 items, taken in order from position (page - 1) * 20 |
| `OfficeController.PageHolds` | app/Http/Controllers/OfficeController.php:40 | the item at position i is on page i / 20 + 1, at slot i mod 20 |
| `OfficeController.PagePosition` | app/Http/Controllers/OfficeController.php:40 | an item found on page p sits at a position whose page number is p |
| `OfficeController.Results` | app/Http/Controllers/OfficeController.php:25-39 | the filtered query annotated by `withCount`, before paging: one entry per filtered row, in table order (each slot's office and count are stated by `ResultsPage`) |
| `OfficeController.ResultsPage` | app/Http/Controllers/OfficeController.php:25-40 | slot k of page p holds the filtered office at position (p - 1) * 20 + k, with that office's active count |
| `OfficeController.Index` | app/Http/Controllers/OfficeController.php:23-43 | the page (`Page`) cut from `Results`: at most 20 offices, every one in the table, approved and not hidden, with the requested owner and a reservation by the requested visitor when those are given, annotated with its active count, in ascending id order |
| `OfficeController.IndexComplete` | app/Http/Controllers/OfficeController.php:25-40 | every office passing the filters appears, with its count, on some page |
| `OfficeController.IndexOnOnePage` | app/Http/Controllers/OfficeController.php:40 | an office appears on one page only: two requests that both list it are served the same page |
| `OfficeController.PositionOf` | app/Http/Controllers/OfficeController.php:40 | an office listed on a page sits in the full filtered result at a position whose page number is the page served |
| `OfficeController.IndexPagesInOrder` | app/Http/Controllers/OfficeController.php:37-40 | the order runs across pages: every office on an earlier page has a smaller id than every office on a later page |
| `OfficeController.Show` | app/Http/Controllers/OfficeController.php:84-92 | found exactly when some office has the id, whatever its approval or hidden state, else 404; returns that office with its active count |
| `OfficeController.IndexAgreesWithShow` | app/Http/Controllers/OfficeController.php:86-88 | each listed office and count is what `show` returns for it |
| `OfficeController.CreateOffice` | app/Http/Controllers/OfficeController.php:50-76 | without `office.create` the answer is 403, even for invalid input; a validator rejection is 422; on failure the store is unchanged; on success the new office, filled (`Fill`) over a blank row with the column defaults (`Blank`), is pending and owned by the requester whatever was supplied, carries exactly the supplied tags (none if absent) and the other validated columns, has a fresh id, and is appended to the table |
| `OfficeController.CreateThenShow` | app/Http/Controllers/OfficeController.php:57-71 | a created office can be shown at once, with zero active reservations |
| `OfficeController.CreatedOfficeNotListed` | app/Http/Controllers/OfficeController.php:59-60 | a just-created office never appears in the listing, whatever the filters or page |
| `OfficeController.UpdateOffice` | app/Http/Controllers/OfficeController.php:112-134 | a missing office is 404; a missing `office.update` ability or a policy refusal is 403 before validation; a validator rejection is 422; on failure the store is unchanged; on success each validated column is written (`Fill`) and the others are kept; tags become exactly the supplied set, or stay as they were when none is supplied; no other row changes |
| `OfficeController.UpdateIdempotent` | app/Http/Controllers/OfficeController.php:123-129 | sending the same update twice leaves the store as the first one did, and gives the same answer when the ability and the policy say the same again |
| `OfficeController.UpdateRepeatKeepsStore` | app/Http/Controllers/OfficeController.php:119-129 | after an update that succeeded, the same update leaves the store as the first one left it, whatever the second request's ability and policy answers |
| `OfficeController.Create` | app/Http/Controllers/OfficeController.php:50-76 | the in-place action (save, then attach tags): result and new database state are those of `CreateOffice` |
| `OfficeController.Update` | app/Http/Controllers/OfficeController.php:112-134 | the in-place action (update, then sync tags): result and new database state are those of `UpdateOffice` |

## Left out

- Geo ordering: the `lat`/`lng` branch (`nearestTo`, app/Http/Controllers/OfficeController.php:34) is not modelled. That model scope is not part of this model. `Index` is the branch without coordinates.
- The office validator, the office policies and the Office model are not part of this model. Their outcomes are parameters: `Validation`, `authorized`. So whatever the validator does is assumed rather than modelled. The validator is modelled as rejecting one field, not as a set of messages.
- Tags: `attach` and `sync` take a list of tag ids. The model takes a set (`Attributes.tags`), so duplicate ids in the request are merged rather than modelled.
- The text of framework validation messages, such as the upload rules' messages, is not modelled (`RuleFailed`).
- Column defaults of a new office come from the migration, which is not part of this model. A new office starts not hidden, with no featured image and no tags (`Blank`).
- File storage is the set of stored paths. `storePublicly` is reduced to adding the path it picked. `Storage::delete` is reduced to removing that path. Upload mechanics and name generation are not modelled.
- Transactions (app/Http/Controllers/OfficeController.php:62,123) and concurrency: each action is one atomic method.
- Response shaping: the resources, eager loading of images, tags and user, and the pagination meta/links envelope are not modelled. `Index` returns the page's data only.
- Request parameters are integers: `Given` models PHP truthiness of absent and `0`. Other non-numeric strings are not modelled.
- `edit` and `destroy` are empty, and the `DELETE /offices/{office}` route names a method that does not exist. There is nothing to model.
- Reservation creation, pricing, availability checks, approval-state resets and admin notifications have no source among the controllers modelled.
