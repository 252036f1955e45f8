/** The resolver functions: the two root queries, the derived fields of a
    photo and the derived fields of a user. Each one receives the store it
    reads instead of closing over global arrays, and none of them changes it. */
module Resolvers {
  import opened Wrappers
  import opened Seqs
  import opened Records

  // ---------------------------------------------------------------------
  // Lookups and selections shared by the joins
  // ---------------------------------------------------------------------

  /** The first user whose login is `login`, if any user has it. */
  function FindUser(users: seq<User>, login: string): (r: Option<User>)
    ensures r.None? <==> forall k :: 0 <= k < |users| ==> users[k].githubLogin != login
    ensures r.Some? ==> exists i :: 0 <= i < |users| && users[i] == r.value
                                   && r.value.githubLogin == login
                                   && forall j :: 0 <= j < i ==> users[j].githubLogin != login
  {
    Find(users, (u: User) => u.githubLogin == login)
  }

  /** The first photo whose id is `id`, if any photo has it. */
  function FindPhoto(photos: seq<Photo>, id: string): (r: Option<Photo>)
    ensures r.None? <==> forall k :: 0 <= k < |photos| ==> photos[k].id != id
    ensures r.Some? ==> exists i :: 0 <= i < |photos| && photos[i] == r.value
                                   && r.value.id == id
                                   && forall j :: 0 <= j < i ==> photos[j].id != id
  {
    Find(photos, (p: Photo) => p.id == id)
  }

  /** The tags on photo `id`, in tag order. */
  function TagsOnPhoto(tags: seq<Tag>, id: string): (r: seq<Tag>)
    ensures forall k :: 0 <= k < |r| ==> r[k] in tags && r[k].photoID == id
    ensures forall i :: 0 <= i < |tags| && tags[i].photoID == id ==> tags[i] in r
  {
    Filter(tags, (t: Tag) => t.photoID == id)
  }

  /** The tags whose user is `key`, in tag order. The key may be absent
      (JavaScript's `undefined`); then no tag's string user id equals it. */
  function TagsWithUserKey(tags: seq<Tag>, key: Option<string>): (r: seq<Tag>)
    ensures forall k :: 0 <= k < |r| ==> r[k] in tags && Some(r[k].userID) == key
    ensures forall i :: 0 <= i < |tags| && Some(tags[i].userID) == key ==> tags[i] in r
  {
    Filter(tags, (t: Tag) => Some(t.userID) == key)
  }

  /** The photos owned by `login`, in insertion order. */
  function OwnedBy(photos: seq<Photo>, login: string): (r: seq<Photo>)
    ensures forall k :: 0 <= k < |r| ==> r[k] in photos && r[k].githubUser == Some(login)
    ensures forall i :: 0 <= i < |photos| && photos[i].githubUser == Some(login) ==> photos[i] in r
  {
    Filter(photos, (p: Photo) => p.githubUser == Some(login))
  }

  /** The photos, in tag order, named by a sequence of tags: for each tag,
      the first photo whose id is the tag's photo id. */
  function PhotosOfTags(photos: seq<Photo>, selected: seq<Tag>): (r: seq<Option<Photo>>)
    ensures |r| == |selected|
    ensures forall k :: 0 <= k < |r| ==> r[k] == FindPhoto(photos, selected[k].photoID)
  {
    Map(Map(selected, (t: Tag) => t.photoID), (id: string) => FindPhoto(photos, id))
  }

  /** The users, in tag order, named by a sequence of tags: for each tag,
      the first user whose login is the tag's. */
  function UsersOfTags(users: seq<User>, selected: seq<Tag>): (r: seq<Option<User>>)
    ensures |r| == |selected|
    ensures forall k :: 0 <= k < |r| ==> r[k] == FindUser(users, selected[k].userID)
  {
    Map(Map(selected, (t: Tag) => t.userID), (login: string) => FindUser(users, login))
  }

  // ---------------------------------------------------------------------
  // Query
  // ---------------------------------------------------------------------

  /** `Query.totalPhotos`. */
  function TotalPhotos(st: Store): nat {
    |st.photos|
  }

  /** `Query.allPhotos(after)`: the cursor is accepted and ignored. */
  function AllPhotos(st: Store, after: Option<Created>): seq<Photo> {
    st.photos
  }

  /** Every cursor gives the same answer, the whole photo array in insertion
      order, and its length is `totalPhotos`. */
  lemma AllPhotosIgnoresCursor(st: Store, after: Option<Created>)
    ensures AllPhotos(st, after) == AllPhotos(st, None) == st.photos
    ensures |AllPhotos(st, after)| == TotalPhotos(st)
  {
  }

  // ---------------------------------------------------------------------
  // Photo
  // ---------------------------------------------------------------------

  const UrlPrefix: string := "http://yoursite.com/img/"
  const UrlSuffix: string := ".jpg"

  /** `Photo.url`: a fixed prefix, the id, a fixed suffix. */
  function Url(p: Photo): (u: string)
    ensures |u| == |UrlPrefix| + |p.id| + |UrlSuffix|
    ensures u[..|UrlPrefix|] == UrlPrefix
    ensures u[|UrlPrefix|..|UrlPrefix| + |p.id|] == p.id
    ensures u[|UrlPrefix| + |p.id|..] == UrlSuffix
  {
    UrlPrefix + p.id + UrlSuffix
  }

  /** The url depends on the id alone, and different ids give different
      urls. */
  lemma UrlDeterminedById(p: Photo, q: Photo)
    ensures Url(p) == Url(q) <==> p.id == q.id
  {
    if Url(p) == Url(q) {
      assert |p.id| == |q.id|;
      assert p.id == Url(p)[|UrlPrefix|..|UrlPrefix| + |p.id|];
    }
  }

  /** `Photo.postedBy`: the first user whose login equals the photo's
      `githubUser`; absent when the photo has no owner or no user matches. */
  function PostedBy(st: Store, p: Photo): (r: Option<User>)
    ensures r.None? <==> p.githubUser.None?
                         || forall k :: 0 <= k < |st.users| ==> Some(st.users[k].githubLogin) != p.githubUser
    ensures r.Some? ==> exists i :: 0 <= i < |st.users| && st.users[i] == r.value
                                   && p.githubUser == Some(r.value.githubLogin)
                                   && forall j :: 0 <= j < i ==> Some(st.users[j].githubLogin) != p.githubUser
  {
    Find(st.users, (u: User) => Some(u.githubLogin) == p.githubUser)
  }

  /** `Photo.taggedUsers`: one entry per tag on the photo, in tag order, each
      the first user with the tag's login, or absent for a dangling login. */
  function TaggedUsers(st: Store, p: Photo): (r: seq<Option<User>>)
    ensures |r| == |TagsOnPhoto(st.tags, p.id)|
    ensures forall k :: 0 <= k < |r| && r[k].Some? ==>
              r[k].value in st.users && Tag(p.id, r[k].value.githubLogin) in st.tags
    ensures forall k :: 0 <= k < |r| && r[k].None? ==>
              forall i :: 0 <= i < |st.users| ==>
                st.users[i].githubLogin != TagsOnPhoto(st.tags, p.id)[k].userID
  {
    var selected := TagsOnPhoto(st.tags, p.id);
    var r := UsersOfTags(st.users, selected);
    assert forall k :: 0 <= k < |r| && r[k].Some? ==> selected[k] == Tag(p.id, r[k].value.githubLogin);
    r
  }

  /** Reference definition of `taggedUsers`: a single pass over the tags that
      emits an entry for each tag on photo `id`. */
  function TaggedUsersRef(users: seq<User>, tags: seq<Tag>, id: string): seq<Option<User>> {
    if |tags| == 0 then []
    else (if tags[0].photoID == id then [FindUser(users, tags[0].userID)] else [])
         + TaggedUsersRef(users, tags[1..], id)
  }

  /** Resolving a split tag list resolves each part. */
  lemma UsersOfTagsAppend(users: seq<User>, a: seq<Tag>, b: seq<Tag>)
    ensures UsersOfTags(users, a + b) == UsersOfTags(users, a) + UsersOfTags(users, b)
  {
    var lhs := UsersOfTags(users, a + b);
    var ra := UsersOfTags(users, a);
    var rb := UsersOfTags(users, b);
    assert |lhs| == |ra + rb|;
    forall k | 0 <= k < |lhs| ensures lhs[k] == (ra + rb)[k] {
      if k < |a| {
        assert (a + b)[k] == a[k];
        assert lhs[k] == ra[k];
      } else {
        assert (a + b)[k] == b[k - |a|];
        assert lhs[k] == rb[k - |a|];
      }
    }
  }

  lemma {:induction false} UsersOfTagsOnPhotoIsRef(users: seq<User>, tags: seq<Tag>, id: string)
    ensures UsersOfTags(users, TagsOnPhoto(tags, id)) == TaggedUsersRef(users, tags, id)
  {
    if |tags| > 0 {
      var head := if tags[0].photoID == id then [tags[0]] else [];
      assert TagsOnPhoto(tags, id) == head + TagsOnPhoto(tags[1..], id);
      UsersOfTagsOnPhotoIsRef(users, tags[1..], id);
      UsersOfTagsAppend(users, head, TagsOnPhoto(tags[1..], id));
    }
  }

  /** The three-stage pipeline agrees with the single-pass reference. */
  lemma TaggedUsersIsRef(st: Store, p: Photo)
    ensures TaggedUsers(st, p) == TaggedUsersRef(st.users, st.tags, p.id)
  {
    UsersOfTagsOnPhotoIsRef(st.users, st.tags, p.id);
  }

  // ---------------------------------------------------------------------
  // User
  // ---------------------------------------------------------------------

  /** `User.postedPhotos`: the photos whose `githubUser` is this user's login,
      in insertion order. */
  function PostedPhotos(st: Store, u: User): (r: seq<Photo>)
    ensures forall k :: 0 <= k < |r| ==> r[k] in st.photos && r[k].githubUser == Some(u.githubLogin)
    ensures forall i :: 0 <= i < |st.photos| && st.photos[i].githubUser == Some(u.githubLogin) ==>
              st.photos[i] in r
  {
    OwnedBy(st.photos, u.githubLogin)
  }

  /** Selecting owned photos commutes with splitting the photo array, so the
      result keeps the array's order. */
  lemma OwnedByAppend(a: seq<Photo>, b: seq<Photo>, login: string)
    ensures OwnedBy(a + b, login) == OwnedBy(a, login) + OwnedBy(b, login)
  {
    FilterAppend(a, b, (p: Photo) => p.githubUser == Some(login));
  }

  /** `User.inPhotos` as written: the tags are selected by the user's `id`
      field, not by `githubLogin`, then mapped to photos by id. */
  function InPhotos(st: Store, u: User): (r: seq<Option<Photo>>)
    ensures |r| == |TagsWithUserKey(st.tags, u.id)|
    ensures u.id.None? ==> r == []
    ensures forall k :: 0 <= k < |r| ==>
              r[k] == FindPhoto(st.photos, TagsWithUserKey(st.tags, u.id)[k].photoID)
    ensures forall k :: 0 <= k < |r| && r[k].Some? ==>
              r[k].value in st.photos && u.id.Some? && Tag(r[k].value.id, u.id.value) in st.tags
  {
    var selected := TagsWithUserKey(st.tags, u.id);
    var r := PhotosOfTags(st.photos, selected);
    assert forall k :: 0 <= k < |r| && r[k].Some? ==> selected[k] == Tag(r[k].value.id, u.id.value);
    r
  }

  /** `inPhotos` joined on the key the tags actually hold, the login. */
  function InPhotosByLogin(st: Store, u: User): (r: seq<Option<Photo>>)
    ensures |r| == |TagsWithUserKey(st.tags, Some(u.githubLogin))|
    ensures forall k :: 0 <= k < |r| ==>
              r[k] == FindPhoto(st.photos, TagsWithUserKey(st.tags, Some(u.githubLogin))[k].photoID)
    ensures forall k :: 0 <= k < |r| && r[k].Some? ==>
              r[k].value in st.photos && Tag(r[k].value.id, u.githubLogin) in st.tags
  {
    var selected := TagsWithUserKey(st.tags, Some(u.githubLogin));
    var r := PhotosOfTags(st.photos, selected);
    assert forall k :: 0 <= k < |r| && r[k].Some? ==> selected[k] == Tag(r[k].value.id, u.githubLogin);
    r
  }

  /** The two joins agree for a user whose `id` is its login. */
  lemma InPhotosAgreesWhenIdIsLogin(st: Store, u: User)
    requires u.id == Some(u.githubLogin)
    ensures InPhotos(st, u) == InPhotosByLogin(st, u)
  {
  }

  // ---------------------------------------------------------------------
  // The tag join seen from both ends
  // ---------------------------------------------------------------------

  predicate UniqueLogins(users: seq<User>) {
    forall i, j :: 0 <= i < j < |users| ==> users[i].githubLogin != users[j].githubLogin
  }

  predicate UniquePhotoIds(photos: seq<Photo>) {
    forall i, j :: 0 <= i < j < |photos| ==> photos[i].id != photos[j].id
  }

  /** With unique logins, looking up a stored user's login finds that user. */
  lemma FindUserOfMember(users: seq<User>, u: User)
    requires UniqueLogins(users)
    requires u in users
    ensures FindUser(users, u.githubLogin) == Some(u)
  {
    var m :| 0 <= m < |users| && users[m] == u;
    var r := FindUser(users, u.githubLogin);
    var i :| 0 <= i < |users| && users[i] == r.value && r.value.githubLogin == u.githubLogin
             && forall j :: 0 <= j < i ==> users[j].githubLogin != u.githubLogin;
    assert !(m < i);
    assert !(i < m);
  }

  /** With unique ids, looking up a stored photo's id finds that photo. */
  lemma FindPhotoOfMember(photos: seq<Photo>, p: Photo)
    requires UniquePhotoIds(photos)
    requires p in photos
    ensures FindPhoto(photos, p.id) == Some(p)
  {
    var m :| 0 <= m < |photos| && photos[m] == p;
    var r := FindPhoto(photos, p.id);
    var i :| 0 <= i < |photos| && photos[i] == r.value && r.value.id == p.id
             && forall j :: 0 <= j < i ==> photos[j].id != p.id;
    assert !(m < i);
    assert !(i < m);
  }

  /** With keys that are unique, the login-keyed join is symmetric: `u` is
      among `p`'s tagged users exactly when a tag links them, exactly when
      `p` is among `u`'s photos. */
  lemma JoinSymmetric(st: Store, p: Photo, u: User)
    requires UniqueLogins(st.users) && UniquePhotoIds(st.photos)
    requires u in st.users && p in st.photos
    ensures Some(u) in TaggedUsers(st, p) <==> Tag(p.id, u.githubLogin) in st.tags
    ensures Some(p) in InPhotosByLogin(st, u) <==> Tag(p.id, u.githubLogin) in st.tags
  {
    var t := Tag(p.id, u.githubLogin);
    if t in st.tags {
      var i :| 0 <= i < |st.tags| && st.tags[i] == t;
      var onPhoto := TagsOnPhoto(st.tags, p.id);
      var k :| 0 <= k < |onPhoto| && onPhoto[k] == t;
      FindUserOfMember(st.users, u);
      assert TaggedUsers(st, p)[k] == Some(u);
      var ofUser := TagsWithUserKey(st.tags, Some(u.githubLogin));
      var k' :| 0 <= k' < |ofUser| && ofUser[k'] == t;
      FindPhotoOfMember(st.photos, p);
      assert InPhotosByLogin(st, u)[k'] == Some(p);
    }
  }
}
