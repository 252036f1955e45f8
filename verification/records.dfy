/** The three record collections the server keeps in memory, and the
    records in them. Every field the source stores as a string is a
    `string`; a field a record may lack is an `Option`. */
module Records {
  import opened Wrappers

  /** The five values of the `PhotoCategory` enum. */
  datatype PhotoCategory = SELFIE | PORTRAIT | ACTION | LANDSCAPE | GRAPHIC

  /** A user. The resolver for `inPhotos` reads an `id` field that no seed
      user has; it is kept here so that its absence is visible. */
  datatype User = User(
    githubLogin: string,
    name: Option<string>,
    avatar: Option<string>,
    id: Option<string>)

  /** When a photo was created: the seed photos carry date strings in mixed
      formats, a posted photo carries the clock reading taken when it was
      posted. Neither is interpreted here. */
  datatype Created = DateText(text: string) | ClockReading(millis: int)

  /** A photo. `name` and `category` are absent only on a photo posted with a
      null `input`; `githubUser` (the owner's login) is absent on every
      posted photo, since the input type has no such field. */
  datatype Photo = Photo(
    id: string,
    name: Option<string>,
    description: Option<string>,
    category: Option<PhotoCategory>,
    githubUser: Option<string>,
    created: Created)

  /** A tag: user `userID` (a login) appears in photo `photoID`. */
  datatype Tag = Tag(photoID: string, userID: string)

  /** The whole server state: the three arrays, in insertion order, and the
      counter that issues the next photo id. */
  datatype Store = Store(
    users: seq<User>,
    photos: seq<Photo>,
    tags: seq<Tag>,
    nextId: nat)
}
