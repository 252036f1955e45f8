# PhotoShare resolvers in Dafny

A model of the resolver layer of a small GraphQL photo-sharing server. The
server keeps three in-memory arrays: users, photos, and tags. A tag records
that a user (by login) appears in a photo (by id). The server answers two
root queries, `totalPhotos` and `allPhotos(after)`. It has one mutation,
`postPhoto(input)`, which appends a photo. It also derives fields by joining
the arrays: a photo's `url`, `postedBy` and `taggedUsers`, and a user's
`postedPhotos` and `inPhotos`.

In the model the store is an immutable value. Each resolver receives the
store it reads. `postPhoto` is a pure function from one store state to the
next. The JavaScript `filter`, `map` and `find` on arrays are
`Seqs.Filter`, `Seqs.Map` and `Seqs.Find`, and each resolver is written as
the same pipeline of those operations as in the source.

Modules:

- `Wrappers`: `Option` (absent field, `find` miss) and `Result`.
- `Seqs`: `Filter`, `Map`, `Find` and their algebra (appending, first match).
- `Decimal`: how a counter-issued numeric id is written as text. It
  includes `Parse`, and the proof that `Parse` inverts `Show`.
- `Records`: the `PhotoCategory` enum, `User`, `Photo`, `Tag`, `Created`
  and the `Store`. The store holds the three arrays and the id counter
  `nextId`.
- `Resolvers`: the `Query`, `Photo` and `User` resolvers. Also
  `InPhotosByLogin`, a version of `inPhotos` that joins on the login, and
  the proof that the login-keyed join is symmetric.
- `Mutation`: `postPhoto` (both as written and with its counter declared),
  the id-freshness invariant, and what a post does to each resolver.
- `Seed`: the seed records and concrete facts about them.

Modelling choices:

- Every id is a string. A counter-issued id is the decimal rendering of the
  counter, written `Decimal.Show(nextId)`.
- `Photo.githubUser` is an `Option`. A posted photo has no owner, because
  the input type has no owner field.
- `Photo.name` and `Photo.category` are `Option`s. The `input` argument of
  `postPhoto` is nullable, and a null input spreads no fields.
- `User.id` is an `Option`. `inPhotos` reads this field, and no seed user
  has it.
- `created` is opaque. A seed photo holds its date text. A posted photo holds
  the clock reading, which `PostPhoto` takes as the parameter `now`.
- The source never says where the id counter starts. `Seed.SeedStore` takes
  the starting value as a parameter. `Seed.SeedIdsFreshIff` and
  `Seed.SeedLowCounterCollides` show that the ids stay unique exactly when
  it starts at 4 or more.

## Model

| member | source | states |
|---|---|---|
| Seqs.Filter | index.js:103 | every kept element comes from the input and satisfies the predicate; every input element that satisfies it is kept; the result is no longer than the input |
| Seqs.FilterAppend | index.js:108 | filtering a concatenation is the concatenation of the filtered parts, so the output keeps the input's order |
| Seqs.Map | index.js:104-105 | one output per input, at the same position, each the function applied to that input |
| Seqs.MapAppend | index.js:104-105 | mapping a concatenation is the concatenation of the mapped parts |
| Seqs.Find | index.js:102 | `None` exactly when no element matches; otherwise the element at some matching position with no match before it (first-match semantics) |
| Seqs.FindAppend | index.js:96 | after an element is pushed, a `find` that already matched returns the same element; a miss becomes the new element exactly when the new element matches |
| Decimal.Show | index.js:91 | a counter value is written as a non-empty string of digits, with no leading zero unless the value is 0, and with one digit exactly when the value is below 10 |
| Decimal.ParseShow | index.js:91 | reading back the written form of a counter value gives the value |
| Decimal.ShowInjective | index.js:91 | two counter values have the same written form if and only if they are equal |
| Resolvers.FindUser | index.js:102 | the first user whose login equals the given login, or `None` exactly when no user has that login |
| Resolvers.FindPhoto | index.js:109 | the first photo whose id equals the given id, or `None` exactly when no photo has that id |
| Resolvers.TagsOnPhoto | index.js:103 | exactly the tags whose photo id is the given id, drawn from the tag array |
| Resolvers.TagsWithUserKey | index.js:109 | exactly the tags whose user id equals the given key; when the key is absent, no tag's string user id can equal it |
| Resolvers.OwnedBy | index.js:108 | exactly the photos whose owner login is the given login, drawn from the photo array |
| Resolvers.UsersOfTags | index.js:104-105 | one entry per tag, in tag order, each being the first user with that tag's login |
| Resolvers.PhotosOfTags | index.js:109 | one entry per tag, in tag order, each being the first photo with that tag's photo id |
| Resolvers.AllPhotosIgnoresCursor | index.js:85-86 | `allPhotos` returns the whole photo array in insertion order, whatever cursor is passed; its length is `totalPhotos` |
| Resolvers.Url | index.js:101 | the url is the fixed prefix `http://yoursite.com/img/`, then the id, then `.jpg` |
| Resolvers.UrlDeterminedById | index.js:101 | two photos have the same url if and only if they have the same id |
| Resolvers.PostedBy | index.js:102 | absent exactly when the photo has no owner or no user has the owner's login; otherwise the first user with that login |
| Resolvers.TaggedUsers | index.js:103-105 | one entry per tag on the photo; every resolved entry is a stored user linked to the photo by a tag; an entry is absent only when no user has that tag's login |
| Resolvers.UsersOfTagsAppend | index.js:104-105 | resolving a split tag list gives the resolutions of the two parts, one after the other |
| Resolvers.UsersOfTagsOnPhotoIsRef | index.js:103-105 | the filter-then-map-then-find pipeline over a tag list equals a single pass that emits one lookup per tag on the photo |
| Resolvers.TaggedUsersIsRef | index.js:103-105 | `taggedUsers` equals the single-pass reference definition over the store's tags |
| Resolvers.PostedPhotos | index.js:108 | every returned photo is stored and owned by the user's login; every stored photo owned by that login is returned |
| Resolvers.OwnedByAppend | index.js:108 | the photos owned by a login in a split photo array are those in the first part, followed by those in the second part (order is preserved) |
| Resolvers.InPhotos | index.js:109 | as written, selects tags by the user's `id` field; a user with no `id` gets the empty list; entry k is the first photo whose id is the k-th selected tag's photo id, in tag order, and is absent exactly when no photo has that id; each resolved entry is a stored photo linked by a tag to that `id` |
| Resolvers.InPhotosByLogin | index.js:109 | the corrected join selects tags by login; entry k is the first photo whose id is the k-th selected tag's photo id, in tag order, and is absent exactly when no photo has that id; each resolved entry is a stored photo linked by a tag to the user's login |
| Resolvers.InPhotosAgreesWhenIdIsLogin | index.js:109 | the as-written and login-keyed joins agree for a user whose `id` is its login |
| Resolvers.FindUserOfMember | index.js:102 | when logins are unique, looking up a stored user's login finds that user |
| Resolvers.FindPhotoOfMember | index.js:109 | when photo ids are unique, looking up a stored photo's id finds that photo |
| Resolvers.JoinSymmetric | index.js:103-109 | when keys are unique, a stored user is among a stored photo's tagged users if and only if a tag links them, if and only if the photo is among the user's login-keyed `inPhotos` |
| Mutation.CategoryOrDefault | index.js:34 | an omitted category becomes PORTRAIT; a supplied category is kept |
| Mutation.PostPhoto | index.js:89-98 | appends exactly one photo after the unchanged earlier photos, and leaves users and tags unchanged; `totalPhotos` grows by 1; the id is the counter's value before it is incremented; the photo has no owner; its fields come from the input, with the category defaulted |
| Mutation.PostPhotoAsWritten | index.js:91 | as written, every call fails with a ReferenceError on `_id`, and no photo is appended |
| Mutation.PostPhotoKeepsIdsFresh | index.js:91 | if the ids are pairwise distinct and none is an id the counter will still issue, the same holds after a post |
| Mutation.SuccessivePostsIncrease | index.js:91 | of two successive posts, the second id's number is one more than the first's, so the two ids differ |
| Mutation.PostAllKeepsIdsFresh | index.js:89-98 | any sequence of posts keeps ids unique, adds one photo per post, keeps the old photos as a prefix, and leaves users and tags unchanged |
| Mutation.PostLeavesOwnershipAlone | index.js:90-96 | a posted photo's `postedBy` is absent, and no user's `postedPhotos` changes |
| Mutation.PhotosOfTagsAfterAppend | index.js:96 | after a push, a tag that resolved keeps its photo; a dangling tag now resolves exactly when it names the new id |
| Mutation.PostKeepsResolvedInPhotos | index.js:96 | after a post, for both joins, every `inPhotos` entry that resolved before is unchanged, and an entry that was absent becomes the new photo exactly when its tag names the new id |
| Mutation.PostLeavesTaggedUsersAlone | index.js:96 | a post changes no photo's `taggedUsers` |
| Seed.SeedStore | index.js:46-81 | the seed users have unique logins and the seed photos have unique ids |
| Seed.SeedSizes | index.js:46-81 | the seed has 3 photos, 3 users and 4 tags, so `totalPhotos` is 3 |
| Seed.SeedLoginsResolve | index.js:46-50 | each seed login finds its own user |
| Seed.SeedTaggedUsersRef | index.js:76-81 | the single-pass reference over the seed tags for photo "2" gives sSchmidt, mHattrup, gPlake |
| Seed.SeedTaggedUsersOfSunshine | index.js:78-80 | `taggedUsers` of photo "2" is Scot Schmidt, Mike Hattrup, Glen Plake, in that order |
| Seed.SeedPostedPhotosOfSchmidt | index.js:60-74 | `postedPhotos` of sSchmidt is photo "2" followed by photo "3" |
| Seed.SeedInPhotosEmpty | index.js:47-49 | `inPhotos` is empty for every seed user, and for any user without an `id` |
| Seed.SeedJoinAsymmetric | index.js:78 | the tag ("2", sSchmidt) puts sSchmidt in photo "2"'s `taggedUsers`, yet `inPhotos` of sSchmidt is empty, while the login-keyed join finds photo "2" |
| Seed.SeedIdsAreNumbers | index.js:53-68 | the seed ids "1", "2", "3" are the written forms of the counter values 1, 2, 3 and read back as them |
| Seed.SeedIdsFreshIff | index.js:51-75 | the id-freshness invariant (ids distinct, and none equal to an id the counter will still issue) holds of the seed store if and only if the counter starts at 4 or more |
| Seed.SeedLowCounterCollides | index.js:51-75 | with a counter starting below 4, two posts to the seed store leave two photos with the same id |
| Seed.SeedPostExample | index.js:89-98 | posting `{name: "Test", category: ACTION}` to the seed gives photo "4", category ACTION, `totalPhotos` 4, and ids still unique |
| Seed.SeedPostDefaultsCategory | index.js:34 | a post without a category stores PORTRAIT |

## Left out

- Server plumbing (index.js:1-3, 120-126): the Express app, the playground
  route, `listen` and the Apollo server setup are I/O and framework code.
- The `DateTime` scalar (index.js:111-117): it depends on JavaScript `Date`
  parsing and `toISOString`. `created` is an opaque value, and
  `allPhotos`'s `after` argument is an opaque `Created`.
- `new Date()` (index.js:93) is the wall clock. It is the parameter `now`.
- `console.log` (index.js:95) is a side effect.
- The schema text (index.js:6-44) is not parsed. Only the five enum values
  and the PORTRAIT default are modelled.
- Query execution is library code: field selection, laziness, null
  propagation and unknown-field errors. For example, a `taggedUsers` entry
  for a dangling login is `None` in the model, and the library turns it into
  a field error under `[User!]!`.
- Input coercion is library code. The input type makes `name` a string and
  `category` one of the five values, so no malformed input reaches
  `PostPhoto`. The resolver does not check that `name` is non-empty, and
  neither does the model.
- An explicit `category: null` in the input is not modelled. The library
  would store null, not the default.
- Mixing number and string ids: in the source, a posted photo's id is a
  number (`_id++`) and a seed id is a string, so `===` between them is
  always false. In the model every id is a string, and an issued id equals
  its decimal rendering. So in the model, a tag whose photo id is "4" names
  posted photo 4 (`Mutation.PhotosOfTagsAfterAppend`). In the source it
  would not.
- Mutation.PostPhoto: the counter is an unbounded `nat`. A JavaScript
  counter is a double, and `++` stops advancing at 2^53, after which every
  post would reuse the same id. So `Mutation.PostAllKeepsIdsFresh` and
  `Mutation.SuccessivePostsIncrease` describe the source only while the
  counter stays below 2^53.
- Where the id counter starts is not modelled. The source never declares
  it, so the store takes it as a field.

## Findings

| source | as written | input that shows it | evidently intended | confidence | as-written member | corrected member |
|---|---|---|---|---|---|---|
| index.js:91 | `id: _id++` reads `_id`, which is declared nowhere in the module | any `postPhoto` call: a ReferenceError, and no photo is added | a module-level counter, declared and started past the seed ids | high, not executed | Mutation.PostPhotoAsWritten | Mutation.PostPhoto |
| index.js:109 | `inPhotos` selects tags by `tag.userID === parent.id`, but tags hold logins and users have no `id` | user sSchmidt, tagged in photo "2": `inPhotos` is empty (Seed.SeedJoinAsymmetric) | select by `parent.githubLogin`, the key the tags hold | high, not executed | Resolvers.InPhotos | Resolvers.InPhotosByLogin |

For the first finding, `Mutation.PostPhotoKeepsIdsFresh` and
`Mutation.PostAllKeepsIdsFresh` prove the intended property about the
corrected `Mutation.PostPhoto`: ids never collide. For the second,
`Resolvers.JoinSymmetric` proves that the corrected join is symmetric with
`taggedUsers`. `Resolvers.InPhotos` is kept as written, because it is what
the server does.
