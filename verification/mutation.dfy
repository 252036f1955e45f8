/** `Mutation.postPhoto`: a transformer from one store state to the next.
    The id counter, which the source increments without ever declaring, is
    the store's `nextId`; the wall clock is a parameter. */
module Mutation {
  import opened Wrappers
  import opened Seqs
  import opened Records
  import opened Resolvers
  import Decimal

  /** The `PostPhotoInput` input type. `category` is `None` when the client
      omitted it. */
  datatype PostPhotoInput = PostPhotoInput(
    name: string,
    category: Option<PhotoCategory>,
    description: Option<string>)

  /** The schema default of the input's `category` field. */
  function CategoryOrDefault(c: Option<PhotoCategory>): (r: PhotoCategory)
    ensures c.None? ==> r == PORTRAIT
    ensures c.Some? ==> r == c.value
  {
    c.GetOr(PORTRAIT)
  }

  /** The state after a post and the photo the mutation returns. */
  datatype Posted = Posted(store: Store, photo: Photo)

  /** The new photo record: the issued id, the fields the input carries,
      and the clock reading. The input has no owner field, and a null input
      contributes no fields at all. */
  function NewPhoto(id: string, input: Option<PostPhotoInput>, now: int): Photo {
    match input
    case None => Photo(id, None, None, None, None, ClockReading(now))
    case Some(i) =>
      Photo(id, Some(i.name), i.description, Some(CategoryOrDefault(i.category)), None, ClockReading(now))
  }

  /** `postPhoto` with the counter declared: the new photo takes the
      counter's current value as its id and is appended; nothing else in the
      store changes. */
  function PostPhoto(st: Store, input: Option<PostPhotoInput>, now: int): (r: Posted)
    ensures r.store.photos == st.photos + [r.photo]
    ensures r.store.users == st.users && r.store.tags == st.tags
    ensures TotalPhotos(r.store) == TotalPhotos(st) + 1
    ensures r.photo.id == Decimal.Show(st.nextId) && r.store.nextId == st.nextId + 1
    ensures r.photo.created == ClockReading(now) && r.photo.githubUser.None?
    ensures input.Some? ==>
              && r.photo.name == Some(input.value.name)
              && r.photo.description == input.value.description
              && r.photo.category == Some(CategoryOrDefault(input.value.category))
    ensures input.None? ==>
              r.photo.name.None? && r.photo.description.None? && r.photo.category.None?
  {
    var p := NewPhoto(Decimal.Show(st.nextId), input, now);
    Posted(st.(photos := st.photos + [p], nextId := st.nextId + 1), p)
  }

  /** The error the JavaScript engine raises. */
  datatype ScriptError = ReferenceError(identifier: string)

  /** `postPhoto` exactly as written: incrementing the id counter reads an
      identifier declared nowhere in the module, which throws before the
      record is built or pushed, so the call fails and the store is left as
      it was. */
  function PostPhotoAsWritten(st: Store, input: Option<PostPhotoInput>, now: int): (r: Result<Posted, ScriptError>)
    ensures r.Failure? && r.error == ReferenceError("_id")
  {
    Failure(ReferenceError("_id"))
  }

  // ---------------------------------------------------------------------
  // Id uniqueness
  // ---------------------------------------------------------------------

  /** The store's ids are pairwise distinct, and none of them is an id the
      counter will issue from now on. */
  ghost predicate IdsFresh(st: Store) {
    && UniquePhotoIds(st.photos)
    && forall i, k: nat :: 0 <= i < |st.photos| && k >= st.nextId ==>
         st.photos[i].id != Decimal.Show(k)
  }

  /** A post keeps the ids unique. */
  lemma PostPhotoKeepsIdsFresh(st: Store, input: Option<PostPhotoInput>, now: int)
    requires IdsFresh(st)
    ensures IdsFresh(PostPhoto(st, input, now).store)
  {
    var r := PostPhoto(st, input, now);
    var photos := r.store.photos;
    forall i, j | 0 <= i < j < |photos| ensures photos[i].id != photos[j].id {
      if j == |st.photos| {
        assert photos[i] == st.photos[i];
      }
    }
    forall i, k: nat | 0 <= i < |photos| && k >= r.store.nextId
      ensures photos[i].id != Decimal.Show(k)
    {
      if i == |st.photos| {
        Decimal.ShowInjective(st.nextId, k);
      } else {
        assert photos[i] == st.photos[i];
      }
    }
  }

  /** Two successive posts get ids whose numbers are consecutive, so the
      later id is strictly greater and never equal to the earlier one. */
  lemma SuccessivePostsIncrease(st: Store, i1: Option<PostPhotoInput>, n1: int,
                                i2: Option<PostPhotoInput>, n2: int)
    ensures var first := PostPhoto(st, i1, n1);
            var second := PostPhoto(first.store, i2, n2);
            && Decimal.Parse(second.photo.id) == Decimal.Parse(first.photo.id) + 1
            && first.photo.id != second.photo.id
  {
    Decimal.ParseShow(st.nextId);
    Decimal.ParseShow(st.nextId + 1);
  }

  /** One call of the mutation: its input and the clock reading it sees. */
  datatype Request = Request(input: Option<PostPhotoInput>, now: int)

  /** The store after a sequence of posts, in order. */
  function PostAll(st: Store, requests: seq<Request>): Store
    decreases |requests|
  {
    if |requests| == 0 then st
    else PostAll(PostPhoto(st, requests[0].input, requests[0].now).store, requests[1..])
  }

  /** Any sequence of posts keeps the ids unique, grows the photo array by
      one per post and leaves the earlier photos, users and tags alone. */
  lemma {:induction false} PostAllKeepsIdsFresh(st: Store, requests: seq<Request>)
    requires IdsFresh(st)
    ensures IdsFresh(PostAll(st, requests))
    ensures TotalPhotos(PostAll(st, requests)) == TotalPhotos(st) + |requests|
    ensures st.photos <= PostAll(st, requests).photos
    ensures PostAll(st, requests).users == st.users && PostAll(st, requests).tags == st.tags
    decreases |requests|
  {
    if |requests| > 0 {
      var next := PostPhoto(st, requests[0].input, requests[0].now).store;
      PostPhotoKeepsIdsFresh(st, requests[0].input, requests[0].now);
      PostAllKeepsIdsFresh(next, requests[1..]);
    }
  }

  // ---------------------------------------------------------------------
  // What the resolvers see after a post
  // ---------------------------------------------------------------------

  /** A posted photo has no owner: `postedBy` finds nobody for it, and no
      user's `postedPhotos` changes. */
  lemma PostLeavesOwnershipAlone(st: Store, input: Option<PostPhotoInput>, now: int, u: User)
    ensures PostedBy(PostPhoto(st, input, now).store, PostPhoto(st, input, now).photo).None?
    ensures PostedPhotos(PostPhoto(st, input, now).store, u) == PostedPhotos(st, u)
  {
    var r := PostPhoto(st, input, now);
    OwnedByAppend(st.photos, [r.photo], u.githubLogin);
    assert OwnedBy([r.photo], u.githubLogin) == [];
  }

  /** Resolving tags against a grown photo array: a tag that already
      resolved keeps its photo; a dangling one now resolves exactly when it
      names the new photo's id. */
  lemma PhotosOfTagsAfterAppend(photos: seq<Photo>, selected: seq<Tag>, x: Photo)
    ensures |PhotosOfTags(photos + [x], selected)| == |PhotosOfTags(photos, selected)|
    ensures forall k :: 0 <= k < |selected| ==>
              PhotosOfTags(photos + [x], selected)[k] ==
                if PhotosOfTags(photos, selected)[k].Some? then PhotosOfTags(photos, selected)[k]
                else if selected[k].photoID == x.id then Some(x) else None
  {
    forall k | 0 <= k < |selected|
      ensures PhotosOfTags(photos + [x], selected)[k] ==
                if PhotosOfTags(photos, selected)[k].Some? then PhotosOfTags(photos, selected)[k]
                else if selected[k].photoID == x.id then Some(x) else None
    {
      FindAppend(photos, x, (p: Photo) => p.id == selected[k].photoID);
    }
  }

  /** `inPhotos` after a post: every entry that resolved before is unchanged,
      and an entry that resolved to nothing still does unless its tag names
      the new photo's id, in which case it is the new photo. */
  lemma PostKeepsResolvedInPhotos(st: Store, input: Option<PostPhotoInput>, now: int, u: User)
    ensures var before := InPhotos(st, u);
            var r := PostPhoto(st, input, now);
            var after := InPhotos(r.store, u);
            var selected := TagsWithUserKey(st.tags, u.id);
            && |after| == |before|
            && (forall k :: 0 <= k < |before| && before[k].Some? ==> after[k] == before[k])
            && (forall k :: 0 <= k < |before| && before[k].None? ==>
                  after[k] == if selected[k].photoID == r.photo.id then Some(r.photo) else None)
    ensures var before := InPhotosByLogin(st, u);
            var r := PostPhoto(st, input, now);
            var after := InPhotosByLogin(r.store, u);
            var selected := TagsWithUserKey(st.tags, Some(u.githubLogin));
            && |after| == |before|
            && (forall k :: 0 <= k < |before| && before[k].Some? ==> after[k] == before[k])
            && (forall k :: 0 <= k < |before| && before[k].None? ==>
                  after[k] == if selected[k].photoID == r.photo.id then Some(r.photo) else None)
  {
    var r := PostPhoto(st, input, now);
    PhotosOfTagsAfterAppend(st.photos, TagsWithUserKey(st.tags, u.id), r.photo);
    PhotosOfTagsAfterAppend(st.photos, TagsWithUserKey(st.tags, Some(u.githubLogin)), r.photo);
  }

  /** Posting changes no photo's tagged users. */
  lemma PostLeavesTaggedUsersAlone(st: Store, input: Option<PostPhotoInput>, now: int, q: Photo)
    ensures TaggedUsers(PostPhoto(st, input, now).store, q) == TaggedUsers(st, q)
  {
  }
}
