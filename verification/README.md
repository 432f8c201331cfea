# Identity reconciliation, modelled in Dafny

The identity service answers one request at a time. A request carries an
email address, a phone number, or both, and the service resolves them against
a `Contact` table. Contacts that share an identifier form one cluster with a
single primary contact, the oldest. All other contacts in the cluster are
secondaries linked straight to that primary. `reconcileIdentity` handles one
request. It finds the contacts matching the request and follows each one's
`linkedId` to its root (`findRoot`). It loads every contact that is one of
those roots or links to one. The oldest loaded contact is elected primary;
every other loaded contact is demoted to a secondary of it. If the request
brings an email or phone number the cluster does not hold yet, a new
secondary is created. `formatResponse` then reduces the final contact list
to the answer: the primary id, the emails and phone numbers with the
primary's first, and the secondary ids.

The project models both functions:

- `contacts.dfy`: the `Contact` row and the table. Also the predicates the
  service keeps: the table agrees with the id counter and the clock
  (`StoreOk`), no column holds an empty string (`NoBlank`), and every link
  points at an older stored primary (`WellLinked`).
- `format.dfy`: `formatResponse`. There is a `FormatResponse` method with
  the source's loop, proved equal to the recursive definition `Formatted`.
  The ordered sets of the source are sequences without duplicates.
- `roots.dfy`: the `findRoot` walk, and lemmas about its hop bound.
- `clusters.dfy`: one request as a function of the table, `Resolve`. It
  covers the raw matching query, roots, the cluster load, ordering,
  election, demotion and extension.
- `store.dfy`: `class ContactStore` holds the table, the id sequence and a
  logical clock. `Reconcile` runs the routine step by step, with the store's
  `create` and `update` as methods, `findRoot` as a loop, and the two loops
  of the routine with their invariants. It is proved to compute `Resolve`.
- `properties.dfy`, `invariant.dfy`, `idempotence.dfy` and `response.dfy`:
  what one request guarantees, stated over `Resolve`. These are the base
  case, election of the oldest contact, demotion, the extension rule, at
  most one insertion, the cluster invariant, idempotence of a repeated
  request, and the shape of the answer.

Timestamps are ticks of a logical clock. `Reconcile` takes the current tick
as the request's time (`now`) and advances the clock. Every row it writes
carries `createdAt` or `updatedAt` equal to `now`.

## Model

| member | source | states |
|---|---|---|
| Contacts.Stored | backend/src/services/identity.service.ts:23-24 | `value \|\| null` stores a value exactly when it is present (an absent or empty value becomes NULL), and what it stores is the given value |
| ResponseFormat.FindContact | backend/src/services/identity.service.ts:119 | `Array.find`: the contact found is the first listed contact with the id asked for; none found means no listed contact has that id |
| ResponseFormat.Formatted | backend/src/services/identity.service.ts:114-137 | definition of the response to a final contact list; its properties are proved in `ResponseFormat.FormattedSpec` |
| ResponseFormat.Seed | backend/src/services/identity.service.ts:119-121 | definition of a set seeded with the primary's own email or phone; its properties are proved in `ResponseFormat.SeedSpec` |
| ResponseFormat.Collect | backend/src/services/identity.service.ts:123-125 | definition of adding every truthy value of a column to an insertion-ordered set; its properties are proved in `ResponseFormat.CollectSpec` |
| ResponseFormat.OthersThan | backend/src/services/identity.service.ts:117-126 | definition of the secondary id list; its properties are proved in `ResponseFormat.OthersThanSpec` and `ResponseFormat.OthersAfterPrimary` |
| ResponseFormat.FormatResponse | backend/src/services/identity.service.ts:114-137 | the loop over the final contacts builds exactly the response `Formatted` defines |
| ResponseFormat.CollectSpec | backend/src/services/identity.service.ts:123-125 | adding every truthy column value to an insertion-ordered set keeps earlier entries in place, adds no duplicate, and leaves exactly the old entries plus the present values |
| ResponseFormat.SeedSpec | backend/src/services/identity.service.ts:119-121 | the set seeded from the primary's own value is duplicate-free and holds only values of the list |
| ResponseFormat.OthersThanSpec | backend/src/services/identity.service.ts:126 | the secondary ids are exactly the listed ids other than the primary's |
| ResponseFormat.OthersAfterPrimary | backend/src/services/identity.service.ts:123-127 | when the primary heads the list and no other contact has its id, the secondary ids are the rest of the list in order |
| ResponseFormat.FormattedSpec | backend/src/services/identity.service.ts:114-137 | the response names the given primary; emails and phones are duplicate-free, hold exactly the present values of the contacts, and start with the primary's own value when it has one; secondary ids are the other listed ids |
| Roots.Walk | backend/src/services/identity.service.ts:37-42 | definition of where `findRoot`'s loop stands after a given number of iterations; its properties are proved in `Roots.CycleNeverEnds` and `Roots.RootOfAgrees` |
| Roots.RootOf | backend/src/services/identity.service.ts:35-43 | definition of the root `findRoot` returns, the walk bounded by the table size; its properties are proved in `Roots.RootOfEndsOrCycles`, `Roots.RootOfAgrees` and `Roots.RootOfWellLinked` |
| Roots.CycleNeverEnds | backend/src/services/identity.service.ts:37-42 | a walk that revisits a row it cannot stop at never reaches a row it can stop at |
| Roots.RootOfEndsOrCycles | backend/src/services/identity.service.ts:35-43 | the walk bounded by the table size either stops on a missing, primary or unlinked row, or the unbounded loop never ends |
| Roots.RootOfAgrees | backend/src/services/identity.service.ts:35-43 | wherever the unbounded loop stops, the bounded walk returns that same id |
| Roots.RootOfWellLinked | backend/src/services/identity.service.ts:35-43 | in a well-linked table the root is the contact itself if primary, else the primary it links to, and is a stored primary |
| Clusters.QueryMatches | backend/src/services/identity.service.ts:8 | definition of the raw query's condition as written, with `''` bound for an omitted identifier; its properties are proved in `Clusters.QueryAgrees` |
| Clusters.QueryIds | backend/src/services/identity.service.ts:6-11 | definition of the rows the raw query returns; its properties are proved in `Clusters.QueryAgrees` |
| Clusters.MatchIds | backend/src/services/identity.service.ts:16-18 | definition of the contacts sharing a present identifier with the request, which is also the race re-check's filter; its properties are proved in `Clusters.QueryAgrees` and `ClusterInvariant.MatchedInCluster` |
| Clusters.RootIds | backend/src/services/identity.service.ts:45-50 | definition of `rootPrimaryIds`, the roots of the matched contacts; its properties are proved in `ClusterInvariant.RootsArePrimary` and `Idempotence.SettledRoots` |
| Clusters.ClusterIds | backend/src/services/identity.service.ts:53-61 | definition of the cluster load, every row that is a root or links to one; its properties are proved in `Clusters.ClusterNonEmpty` and `ClusterInvariant.PrimaryMembersAreRoots` |
| Clusters.NeedsRepoint | backend/src/services/identity.service.ts:72-73 | definition of the demotion test; its properties are proved in `Properties.DemotedSpec` and `Properties.DemotionLinksCluster` |
| Clusters.Repointed | backend/src/services/identity.service.ts:75-78 | definition of the row the update writes; its properties are proved in `Properties.DemotedKeepsColumns` |
| Clusters.Demoted | backend/src/services/identity.service.ts:71-84 | definition of the table after the demotion loop; its properties are proved in `Properties.DemotedSpec`, `Properties.DemotedKeepsColumns` and `ClusterInvariant.DemotedWellLinked` |
| Clusters.NeedsNew | backend/src/services/identity.service.ts:87-91 | definition of `isNewEmail \|\| isNewPhone` over the loaded rows; its properties are proved in `Properties.ExtensionRule` |
| Clusters.NewContact | backend/src/services/identity.service.ts:95-102 | definition of the row `create` inserts, with `value \|\| null` columns; its properties are proved in `Properties.FreshRequestCreatesPrimary`, `Properties.ExtensionRule` and `Answers.NewValues` |
| Clusters.Resolve | backend/src/services/identity.service.ts:3-112 | definition of one request as a step on the table, id sequence and response; its properties are proved in `Properties`, `ClusterInvariant`, `Idempotence` and `Answers` |
| Clusters.Merge | backend/src/services/identity.service.ts:45-110 | definition of the matched branch; its properties are proved in `Properties.MatchedOutcome` and `Properties.ExtensionRule` |
| Clusters.QueryAgrees | backend/src/services/identity.service.ts:6-11 | on a table with no empty-string column, the raw query (an omitted identifier bound as `''`) returns exactly the contacts sharing a present identifier with the request |
| Clusters.ClusterNonEmpty | backend/src/services/identity.service.ts:45-61 | when something matched, the cluster load returns at least one contact, so `sortedRelated[0]` exists |
| Clusters.OldestOf | backend/src/services/identity.service.ts:63-67 | every non-empty set of stored contacts has a member created before all others |
| Clusters.Oldest | backend/src/services/identity.service.ts:63-67 | the chosen contact is in the set and created before every other member |
| Clusters.AgeSorted | backend/src/services/identity.service.ts:53-64 | the loaded ids, each once, listed in creation order |
| Clusters.AgeOrderedUnique | backend/src/services/identity.service.ts:60-64 | two creation-ordered listings of the same contacts are identical, so the sorted cluster is determined by its members |
| Clusters.DemotedStep | backend/src/services/identity.service.ts:71-84 | one more turn of the demotion loop rewrites at most the one row it visits, and only when the row needs repointing |
| IdentityService.ContactStore.Create | backend/src/services/identity.service.ts:21-27 | inserts under the next id a row with `value \|\| null` columns stamped now, changes no other row and advances the id sequence |
| IdentityService.ContactStore.Update | backend/src/services/identity.service.ts:75-78 | rewrites one row as a secondary linked to the primary, stamped now, and nothing else |
| IdentityService.ContactStore.FindRoot | backend/src/services/identity.service.ts:35-43 | the loop returns the root `RootOf` defines |
| IdentityService.ContactStore.CollectRoots | backend/src/services/identity.service.ts:45-50 | the set built by the loop is the set of roots of the matched contacts |
| IdentityService.ContactStore.DemoteAll | backend/src/services/identity.service.ts:69-84 | after the loop the table is the demoted table: touched rows other than the primary that were primary or linked elsewhere are repointed, and nothing else changes |
| IdentityService.ContactStore.Reconcile | backend/src/services/identity.service.ts:3-112 | one request leaves the table, the id sequence and the response `Resolve` defines, advances the clock by one tick, and keeps `Valid`: the store consistent, no empty-string column, and the table well linked |
| IdentityService.ContactStore.MergeCluster | backend/src/services/identity.service.ts:45-110 | the matched branch leaves the table, id sequence and response the matched case of `Resolve` defines |
| Properties.Elected | backend/src/services/identity.service.ts:63-67 | the elected contact is a stored member of the touched contacts, created before every other one |
| Properties.FreshRequestCreatesPrimary | backend/src/services/identity.service.ts:13-28 | a request that matches nothing inserts exactly one row, an unlinked primary with the request's values, and answers with that contact alone |
| Properties.ElectsOldest | backend/src/services/identity.service.ts:63-67 | the answer's primary is the elected contact, whose `createdAt` is no later than that of any touched contact, whichever identifier matched it |
| Properties.DemotionLinksCluster | backend/src/services/identity.service.ts:69-84 | after a matched request every other touched contact is a secondary linked straight to the primary; the primary is unchanged; only touched rows that were primary or linked elsewhere are rewritten, and only in link, precedence and update time; no row is removed |
| Properties.MatchedShape | backend/src/services/identity.service.ts:86-107 | a matched request leaves the demoted table, possibly with one row added under the next id |
| Properties.DemotedSpec | backend/src/services/identity.service.ts:70-84 | demotion keeps the table's keys, links every other cluster member to the primary, leaves the primary and every row not needing repointing as they were |
| Properties.ElectionOrder | backend/src/services/identity.service.ts:63-67 | the sorted cluster starts with the elected contact and lists stored rows only |
| Properties.MatchedOutcome | backend/src/services/identity.service.ts:45-110 | a matched request leaves the demoted table plus, exactly when a value is new, the new secondary, and answers with the loaded rows in creation order, followed by that secondary |
| Properties.DemotedKeepsColumns | backend/src/services/identity.service.ts:75-78 | demotion never changes a row's id, creation time, email or phone |
| Properties.DemotedOrder | backend/src/services/identity.service.ts:64 | the loaded rows stay in creation order after demotion |
| Properties.LoadedValues | backend/src/services/identity.service.ts:87-88 | the emails or phones collected from the loaded rows after demotion are exactly those of the touched contacts before it |
| Properties.ExtensionRule | backend/src/services/identity.service.ts:86-103 | a matched request inserts a row exactly when its email or phone is present and missing from the cluster; that row is one secondary of the primary carrying both request values; otherwise no row is added |
| Properties.AtMostOneInsert | backend/src/services/identity.service.ts:93-103 | any request adds at most one row, under the next id, removes none, and advances the id sequence by at most one |
| ClusterInvariant.MatchedInCluster | backend/src/services/identity.service.ts:35-61 | in a well-linked table every matched contact is among the loaded ones |
| ClusterInvariant.RootsArePrimary | backend/src/services/identity.service.ts:45-50 | in a well-linked table every collected root is a stored primary |
| ClusterInvariant.PrimaryMembersAreRoots | backend/src/services/identity.service.ts:53-61 | in a well-linked table a primary among the loaded contacts is one of the roots |
| ClusterInvariant.ElectedIsPrimary | backend/src/services/identity.service.ts:63-67 | in a well-linked table the elected contact is already an unlinked primary |
| ClusterInvariant.DemotedWellLinked | backend/src/services/identity.service.ts:69-84 | the demotions of a matched request keep a well-linked table well linked |
| ClusterInvariant.InsertKeepsWellLinked | backend/src/services/identity.service.ts:94-103 | adding a row whose own link is sound keeps the table well linked |
| ClusterInvariant.InsertKeepsNoBlank | backend/src/services/identity.service.ts:96-98 | a row written with `value \|\| null` columns adds no empty string to the table |
| ClusterInvariant.DemotedKeepsStore | backend/src/services/identity.service.ts:75-78 | demotion stamped now keeps the table consistent with the id sequence and the next tick |
| ClusterInvariant.ExtendKeeps | backend/src/services/identity.service.ts:94-103 | inserting under the next id a row stamped now keeps the store consistent, and keeps the table well linked when the row's link is sound |
| ClusterInvariant.MatchedKeepsInvariants | backend/src/services/identity.service.ts:45-110 | a matched request keeps the store consistent, a well-linked table well linked and a blank-free table blank-free |
| ClusterInvariant.ResolveKeepsInvariants | backend/src/services/identity.service.ts:3-112 | every request keeps the store consistent with the id sequence and the advanced clock, keeps a well-linked table well linked and keeps a blank-free table blank-free |
| Idempotence.SettledRoots | backend/src/services/identity.service.ts:35-61 | matches inside a merged cluster all lead to its primary, and the cluster load returns exactly that cluster |
| Idempotence.SettledNoDemotion | backend/src/services/identity.service.ts:71-84 | the demotion loop rewrites nothing in a merged cluster |
| Idempotence.SettledResolve | backend/src/services/identity.service.ts:45-110 | a request whose matches lie in a merged cluster and which brings no new value changes nothing and answers with the cluster in creation order |
| Idempotence.FreshSettled | backend/src/services/identity.service.ts:13-28 | after a request that created a primary, that primary alone forms a merged cluster that already holds the request's values |
| Idempotence.SettledInsert | backend/src/services/identity.service.ts:94-103 | adding the new secondary to a merged cluster keeps it merged, with the new row last in creation order and the request's values present |
| Idempotence.SettledRepeats | backend/src/services/identity.service.ts:3-112 | on a merged outcome the same request changes nothing and answers the same |
| Idempotence.ResolveIdempotent | backend/src/services/identity.service.ts:3-112 | on a well-linked table, repeating a request that carries an email or phone changes no row, creates no contact and returns the identical response |
| Answers.ListedResponse | backend/src/services/identity.service.ts:114-127 | for rows in creation order headed by the primary, the secondary ids are the other rows' ids in that order and the primary's email and phone lead their lists |
| Answers.ClusterAnswer | backend/src/services/identity.service.ts:109-110 | the full answer to a cluster in creation order followed by new rows: primary, secondary ids in order, duplicate-free lists holding exactly the present values, primary's values first |
| Answers.NewValues | backend/src/services/identity.service.ts:94-103 | the new contact contributes exactly the request's present values |
| Answers.LoadedAnswer | backend/src/services/identity.service.ts:80-81 | answering from the demoted rows gives the values the touched contacts held before demotion, in creation order |
| Answers.MatchedResponse | backend/src/services/identity.service.ts:109-110 | a matched request answers with the elected primary; the secondaries are the other touched contacts oldest first, then the new contact if one was added; emails and phones are each listed once, are exactly those of the cluster plus any new request value, and start with the primary's own |

## Left out

- Transactions, row locks (`FOR UPDATE`) and concurrency: each request is one atomic step on the table. The guarantees about interleaved requests are not modelled.
- The race re-check (lines 16-18) finds nothing in a model without concurrent writers. `Reconcile` asserts this. The branch that appends the race result (line 30) is therefore not modelled.
- `Promise.all` (lines 105-107): the updates are modelled as applied in the demotion loop, before the insert. They touch different rows than the insert, so the final table is the same.
- The raw query's `''` parameter for an omitted identifier (line 8): `Clusters.QueryIds` models the query as written, and `Reconcile` uses it. Its agreement with "an omitted identifier matches nothing" is proved only for blank-free tables. Every request keeps a table blank-free, and the store invariant includes it. A table holding `''` written by other code is outside the model.
- Equal `createdAt` values: the source keeps whatever order the database returns (stable sort, line 64). The model breaks such ties by the lower id, which is one of the orders the database may return.
- `findRoot`'s loop has no bound. The model stops after as many hops as the table has rows. `Roots.RootOfAgrees` and `Roots.RootOfEndsOrCycles` show that this changes the result only where the source would loop forever.
- Real timestamps are a logical clock; the database's auto-increment ids are the `nextId` counter starting at 1.
- The in-memory objects in `sortedRelated` are modelled as the demoted rows read back from the table. They differ only in `updatedAt`, which the response does not use.
- The HTTP layer, request validation, error handling and the database client are not part of this model.
- Idempotence.ResolveIdempotent: requires a well-linked table and a request with an email or a phone. On other tables a first request can leave links that a second request changes. `IdentityService.ContactStore.Valid` holds this for every table the store reaches: the constructor establishes it and `Reconcile` keeps it.
