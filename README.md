# Product engagements: a verified model

This project models the data layer of a small product catalogue API. The
catalogue has users, products and a per-user *engagement* on a product, which
is a LIKE or a DISLIKE. Each product derives two counters from the engagement
table, `likes` and `dislikes`. They are recomputed on every read and never
stored.

The model has five parts:

- `wrappers.dfy` (`Wrappers`) holds `Option` and `Result`.
- `engagements.dfy` (`Engagements`) is the engagement table as a value, a map from
  primary key to `(user, product, kind)` rows. It holds:
  - the two choices of the `engagement` column and the validation of a
    submitted value against their stored values;
  - the `unique_user_product` constraint;
  - the counting query, both as written (a join of the product row to its
    engagement rows of one type) and as a plain row count;
  - the table operations, and lemmas saying how each one moves the counters.
- `products.dfy` (`Products`) holds the product record and the rules a submitted
  `name` or `description` goes through. The serializer generated for `Product`
  strips surrounding whitespace, refuses a blank value or one holding a NUL
  character, and checks the stripped value against the column's `max_length`.
  All invalid fields are reported together. An update is either full, which
  must give both fields, or partial, which keeps the stored value of a field
  it omits.
- `store.dfy` (`Store`) holds the class `Database`. Its fields are the user set,
  the product table, the engagement table and one primary-key counter per
  table. Its methods change them in place:
  - create a user, create a product, update some or all of a product's fields;
  - create an engagement, update a row's type, delete a row;
  - delete a product or a user, cascading to their engagements.

  Its object invariant `Valid()` has four parts:
  - the uniqueness constraint;
  - both foreign keys of every row;
  - the field rules of every stored product;
  - each key counter lies above every key of its table, so a new key is fresh.
- `scenarios.dfy` (`Scenarios`) holds client methods that run against `Database`
  and prove the counts they observe from the class's contracts alone.
  - `MultipleProductsScenario`, `MixedEngagementsScenario` and
    `FlipToLikeScenario` each replay one test of `example_app/tests.py`.
  - `DuplicateEngagementScenario` replays no test. It exercises the
    `unique_user_product` constraint.
  - A few helper methods there build the starting state and submit one or two
    reactions.

In the API test at `example_app/tests.py:120-178`, three rows are created:
LIKE, DISLIKE, DISLIKE. The last row is then patched to LIKE, so the counts go
from 1/2 to 2/1. `FlipToLikeScenario` follows this test.

## Model

| member | source | states |
|---|---|---|
| `Engagements.ParseKind` | example_app/models.py:31 | A submitted value is accepted exactly when it is the stored value of one of the two choices, `LIKE` or `DISLIKE`, and every accepted value fits the 8-character column |
| `Engagements.UniqueIffAtMostOnePerPair` | example_app/models.py:35-39 | The `unique_user_product` constraint holds exactly when every (user, product) pair has at most one row |
| `Engagements.Count` | example_app/models.py:14-24 | A product's counter for a type is zero exactly when none of its rows has that type, and it never exceeds the number of rows on the product |
| `Engagements.JoinCount` | example_app/models.py:16-18 | The query as written, products with this key joined to their rows of one type, counts each matching row exactly once when the product row exists, and is 0 when it does not |
| `Engagements.LikesPlusDislikes` | example_app/models.py:6 | Because a row's type is one of exactly two choices, `likes + dislikes` is the number of rows on the product |
| `Engagements.CountIsDistinctUsers` | example_app/models.py:35-39 | Under the uniqueness constraint, each counter equals the number of distinct users with that reaction to the product |
| `Engagements.HasPairIffPairRows` | example_app/models.py:35-39 | A (user, product) pair has a row exactly when its set of rows is non-empty, linking the lookup the create uses to the constraint's row sets |
| `Engagements.HasPairAfterInsert` | example_app/models.py:35-39 | After an insert, a (user, product) pair has a row exactly when it had one before or the new row is for that pair |
| `Engagements.InsertCount` | example_app/tests.py:102-116 | Inserting a row raises only the counter of its own product and type, by exactly one |
| `Engagements.InsertKindTotal` | example_app/tests.py:55-81 | Inserting a row raises the table-wide number of rows of its own type by one and leaves the other type's number unchanged |
| `Engagements.RemoveCount` | example_app/models.py:14-24 | Removing a row lowers only the counter of its own product and type, by exactly one |
| `Engagements.WithKind` | example_app/models.py:31 | Updating a row's type in place keeps every key, keeps the row's user and product, sets its type, leaves every other row unchanged, and preserves the uniqueness constraint |
| `Engagements.WithKindCount` | example_app/models.py:14-24 | Updating a row's type moves one unit from its old counter to its new one, on its own product only |
| `Engagements.DislikeToLike` | example_app/tests.py:165-178 | Turning a DISLIKE into a LIKE adds one like and removes one dislike on that row's product, and leaves every other product's counters unchanged |
| `Engagements.CountsAreLocal` | example_app/models.py:14-24 | Two tables that agree on a product's rows give that product the same counters, whatever their other rows are |
| `Engagements.WithoutProduct` | example_app/models.py:30 | The cascade from deleting a product removes exactly the rows that reference it, leaves every other row unchanged, and preserves the uniqueness constraint |
| `Engagements.WithoutProductCount` | example_app/models.py:30 | After the cascade that deletes a product, its counters are zero and every other product's counters are unchanged |
| `Engagements.WithoutUser` | example_app/models.py:29 | The cascade from deleting a user removes exactly the rows that reference them, leaves every other row unchanged, and preserves the uniqueness constraint |
| `Engagements.WithoutUserCount` | example_app/models.py:29 | After the cascade that deletes a user, each product's counter drops by one exactly when that user had that reaction to it |
| `Products.Trim` | example/serializers.py:24-27 | The stripped value starts and ends with a non-whitespace character, and it is empty exactly when the submitted value is all whitespace |
| `Products.TrimIsSlice` | example/serializers.py:24-27 | The stripped value is the submitted value itself with only whitespace cut off at either end |
| `Products.Check` | example_app/models.py:10-11 | A product is accepted exactly when its stripped name has 1 to 30 characters, its stripped description 1 to 255, and neither holds a NUL character. Then the stripped values are what is stored. Otherwise every blank, over-long or NUL-holding field is reported |
| `Products.BlankNameRefused` | example_app/models.py:10 | A name made only of whitespace is refused and reported, whatever the description |
| `Products.CheckStored` | example_app/models.py:10-11 | A stored product passes validation again and is returned unchanged |
| `Products.Revise` | example/serializers.py:24-27 | A partial update, or a full one giving both fields, is validated as the creation of the merged product would be. A full update that omits a field is refused with that field reported. An accepted result is valid, and an omitted field keeps its stored value |
| `Products.ReviseReports` | example/serializers.py:24-27 | A refused update reports a given field exactly when its stripped value breaks the column's rules, and an omitted field exactly when the update is full |
| `Store.Database.constructor` | example_app/models.py:27-39 | The empty store satisfies the object invariant: the uniqueness constraint, both foreign keys, the product field rules, and fresh key counters |
| `Store.Database.Likes` | example_app/models.py:14-18 | `likes`, computed as the join as written, equals the number of LIKE rows on the product |
| `Store.Database.Dislikes` | example_app/models.py:20-24 | `dislikes`, computed as the join as written, equals the number of DISLIKE rows on the product |
| `Store.Database.CreateUser` | example_app/models.py:5 | A new user gets a key not currently in use and has no engagements. Nothing else changes |
| `Store.Database.CreateProduct` | example_app/models.py:9-11 | A product is stored exactly when its stripped fields pass `Products.Check`, under a fresh key, with the stripped values and no engagements. On failure the fields at fault are returned and nothing changes |
| `Store.Database.UpdateProduct` | example_app/models.py:9-11 | The product becomes the result of `Products.Revise`: a full update must give both fields, and a partial one keeps the fields it omits. The product must exist and the result must pass validation. A missing product is NotFound. On failure the reported fields are returned and nothing changes. No engagement ever changes |
| `Store.Database.CreateEngagement` | example_app/models.py:27-39 | A row is inserted under a fresh key exactly when both references exist, the submitted type is one of the two stored values, and the pair has no row yet. Dangling references and an unknown type are all reported together. A duplicate pair is refused and leaves the table unchanged. Uniqueness and the foreign keys are preserved |
| `Store.Database.SetKind` | example_app/models.py:31 | An existing row's type is updated in place to a valid submitted value, and nothing else changes. A missing row is NotFound, and an unknown value is reported as an invalid type |
| `Store.Database.DeleteEngagement` | example_app/models.py:27-32 | Exactly the named row is removed. A missing row is NotFound |
| `Store.Database.DeleteProduct` | example_app/models.py:30 | The product and exactly the rows that reference it are removed. All other rows remain unchanged |
| `Store.Database.DeleteUser` | example_app/models.py:29 | The user and exactly the rows that reference them are removed. All other rows remain unchanged |
| `Scenarios.MultipleProductsScenario` | example_app/tests.py:55-81 | One user likes two products and dislikes two others. The table then holds exactly two LIKE rows and two DISLIKE rows |
| `Scenarios.MixedEngagementsScenario` | example_app/tests.py:102-116 | Two LIKEs and one DISLIKE from three users give `likes == 2` and `dislikes == 1` |
| `Scenarios.FlipToLikeScenario` | example_app/tests.py:120-178 | LIKE, DISLIKE, DISLIKE give 1/2. Patching the last row to LIKE succeeds and gives 2/1 |
| `Scenarios.DuplicateEngagementScenario` | example_app/models.py:35-39 | A second engagement by the same user on the same product is refused, and the counters stay 1/0 |

## Left out

- The HTTP layer in `example_app/views.py` and `example/serializers.py` is not modelled, apart from the serializers' field validation. This covers routing, the `IsAuthenticated` gate, hyperlinked representations and status codes. Operations return `Result` values instead of responses.
- Users and groups belong to the authentication library. A user is only a key here, and groups are not modelled.
- The `created` timestamps are wall-clock values with no logic, so they are left out.
- The two indexes affect performance only, so they are left out.
- Concurrent creates and updates are left out. They serialize in the datastore, and each operation here is atomic.
- Store.Database.CreateEngagement: a duplicate pair is refused with `DuplicateEngagement`. The model does not say whether the framework reports this as a validation error or as an integrity error from the datastore. In both cases the table is unchanged.
- Store.Database.SetKind: only the engagement type of an existing row is updated. A full update that moves a row to another user or product is not modelled.
- Primary keys come from per-table counters that are never reused. The datastore's actual key allocation is not modelled.
- Products.Check: lengths are counted in characters of the string. The database's own length semantics are not modelled.
- Products.Trim: only six ASCII whitespace characters are stripped: space, tab, line feed, carriage return, vertical tab and form feed. The separators `\x1c` to `\x1f` are not stripped. Other Unicode whitespace that Python's `str.strip` also removes is not modelled.
- Products.Check: the field rules are those of the validated write path, which is the API. A direct insert through the ORM, as the tests do, skips validation. The model does not represent such an insert.
- Scenarios: most tests insert their rows through the ORM directly; the API test creates its rows through the engagements endpoint. The scenarios submit the same values through the validated create, which stores the same rows for these valid inputs.
