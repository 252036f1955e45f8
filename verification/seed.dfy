/** The records the server starts with, and what the resolvers answer
    about them. The source never says where its id counter starts, so the
    seed store takes the starting value as a parameter. */
module Seed {
  import opened Wrappers
  import opened Records
  import opened Resolvers
  import opened Mutation
  import Decimal

  const MHattrup: User := User("mHattrup", Some("Mike Hattrup"), None, None)
  const GPlake: User := User("gPlake", Some("Glen Plake"), None, None)
  const SSchmidt: User := User("sSchmidt", Some("Scot Schmidt"), None, None)

  const Users: seq<User> := [MHattrup, GPlake, SSchmidt]

  const HeartChute: Photo := Photo(
    "1", Some("Dropping the Heart Chute"),
    Some("The heart chute is one of my favorite chutes"),
    Some(ACTION), Some("gPlake"), DateText("3-18-1977"))
  const Sunshine: Photo := Photo(
    "2", Some("Enjoying the sunshine"), None,
    Some(SELFIE), Some("sSchmidt"), DateText("1-2-1985"))
  const Gunbarrel: Photo := Photo(
    "3", Some("Gunbarrel 25"), Some("25 laps on gunbarrel today"),
    Some(LANDSCAPE), Some("sSchmidt"), DateText("2018-04-15T19:09:57.308Z"))

  const Photos: seq<Photo> := [HeartChute, Sunshine, Gunbarrel]

  const Tags: seq<Tag> := [
    Tag("1", "gPlake"),
    Tag("2", "sSchmidt"),
    Tag("2", "mHattrup"),
    Tag("2", "gPlake")
  ]

  function SeedStore(start: nat): (st: Store)
    ensures UniqueLogins(st.users) && UniquePhotoIds(st.photos)
  {
    Store(Users, Photos, Tags, start)
  }

  /** Three photos, three users, four tags. */
  lemma SeedSizes(start: nat)
    ensures TotalPhotos(SeedStore(start)) == 3
    ensures |SeedStore(start).users| == 3 && |SeedStore(start).tags| == 4
  {
  }

  /** Each seed login finds its own user. */
  lemma SeedLoginsResolve()
    ensures FindUser(Users, "sSchmidt") == Some(SSchmidt)
    ensures FindUser(Users, "mHattrup") == Some(MHattrup)
    ensures FindUser(Users, "gPlake") == Some(GPlake)
  {
    FindUserOfMember(Users, SSchmidt);
    FindUserOfMember(Users, MHattrup);
    FindUserOfMember(Users, GPlake);
  }

  /** The single-pass reference run over the seed tags for photo "2". */
  lemma SeedTaggedUsersRef()
    ensures TaggedUsersRef(Users, Tags, "2") == [Some(SSchmidt), Some(MHattrup), Some(GPlake)]
  {
    SeedLoginsResolve();
    var t3: seq<Tag> := [Tag("2", "gPlake")];
    var t2: seq<Tag> := [Tag("2", "mHattrup")] + t3;
    var t1: seq<Tag> := [Tag("2", "sSchmidt")] + t2;
    assert t3[1..] == [];
    assert TaggedUsersRef(Users, t3, "2") == [Some(GPlake)];
    assert t2[1..] == t3;
    assert TaggedUsersRef(Users, t2, "2") == [Some(MHattrup), Some(GPlake)];
    assert t1[1..] == t2;
    assert TaggedUsersRef(Users, t1, "2") == [Some(SSchmidt), Some(MHattrup), Some(GPlake)];
    assert Tags[1..] == t1;
  }

  /** Photo "2" is tagged with Scot Schmidt, Mike Hattrup and Glen Plake, in
      the order of the tag list. */
  lemma SeedTaggedUsersOfSunshine(start: nat)
    ensures TaggedUsers(SeedStore(start), Sunshine) == [Some(SSchmidt), Some(MHattrup), Some(GPlake)]
    ensures SSchmidt.name == Some("Scot Schmidt") && MHattrup.name == Some("Mike Hattrup")
            && GPlake.name == Some("Glen Plake")
  {
    TaggedUsersIsRef(SeedStore(start), Sunshine);
    SeedTaggedUsersRef();
  }

  /** sSchmidt posted photos "2" and "3", in that order. */
  lemma SeedPostedPhotosOfSchmidt(start: nat)
    ensures PostedPhotos(SeedStore(start), SSchmidt) == [Sunshine, Gunbarrel]
  {
    OwnedByAppend([HeartChute], [Sunshine, Gunbarrel], "sSchmidt");
    OwnedByAppend([Sunshine], [Gunbarrel], "sSchmidt");
    assert Photos == [HeartChute] + [Sunshine, Gunbarrel];
    assert [Sunshine, Gunbarrel] == [Sunshine] + [Gunbarrel];
  }

  /** No seed user has an `id`, so `inPhotos` is empty for all of them, and
      for any other user without one. */
  lemma SeedInPhotosEmpty(st: Store, u: User)
    requires u in Users || u.id.None?
    ensures InPhotos(st, u) == []
  {
  }

  /** The tag linking photo "2" and sSchmidt is seen from the photo's side
      but not by `inPhotos`; the login-keyed join sees it from both. */
  lemma SeedJoinAsymmetric(start: nat)
    ensures Tag("2", "sSchmidt") in SeedStore(start).tags
    ensures Some(SSchmidt) in TaggedUsers(SeedStore(start), Sunshine)
    ensures InPhotos(SeedStore(start), SSchmidt) == []
    ensures Some(Sunshine) in InPhotosByLogin(SeedStore(start), SSchmidt)
  {
    assert Tags[1] == Tag("2", "sSchmidt");
    JoinSymmetric(SeedStore(start), Sunshine, SSchmidt);
  }

  /** The seed ids are the written forms of 1, 2 and 3. */
  lemma SeedIdsAreNumbers()
    ensures Decimal.Show(1) == "1" && Decimal.Show(2) == "2" && Decimal.Show(3) == "3"
    ensures Decimal.Parse("1") == 1 && Decimal.Parse("2") == 2 && Decimal.Parse("3") == 3
  {
    assert "1"[..0] == "" && "2"[..0] == "" && "3"[..0] == "";
  }

  /** The seed ids stay unique under posting exactly when the counter starts
      past them: starting at 1, 2 or 3 reissues a seed id (0 issues "0", then
      "1"). */
  lemma SeedIdsFreshIff(start: nat)
    ensures IdsFresh(SeedStore(start)) <==> start >= 4
  {
    var st := SeedStore(start);
    SeedIdsAreNumbers();
    if start >= 4 {
      forall i, k: nat | 0 <= i < |st.photos| && k >= st.nextId
        ensures st.photos[i].id != Decimal.Show(k)
      {
        Decimal.ParseShow(k);
        assert st.photos[i].id == Decimal.Show(i + 1);
      }
    } else {
      var k: nat := if start == 0 then 1 else start;
      assert Decimal.Show(k) == st.photos[k - 1].id;
    }
  }

  /** A counter starting below 4 does reissue a seed id: two posts from
      the seed store leave two photos with the same id. */
  lemma SeedLowCounterCollides(start: nat)
    requires start < 4
    ensures !UniquePhotoIds(PostAll(SeedStore(start), [Request(None, 0), Request(None, 0)]).photos)
  {
    SeedIdsAreNumbers();
    var requests := [Request(None, 0), Request(None, 0)];
    var s1 := PostPhoto(SeedStore(start), None, 0).store;
    var s2 := PostPhoto(s1, None, 0).store;
    assert requests[1..] == [Request(None, 0)];
    assert [Request(None, 0)][1..] == [];
    assert PostAll(SeedStore(start), requests) == s2;
    var photos := s2.photos;
    assert |photos| == 5;
    if start == 0 {
      assert photos[0].id == photos[4].id;
    } else {
      assert photos[start - 1].id == photos[3].id;
    }
  }

  /** Posting `{name: "Test", category: ACTION}` to the fresh seed store
      gives photo "4" with category ACTION and brings the count to 4. */
  lemma SeedPostExample(now: int)
    ensures var r := PostPhoto(SeedStore(4), Some(PostPhotoInput("Test", Some(ACTION), None)), now);
            && TotalPhotos(r.store) == 4
            && r.photo.id == "4"
            && r.photo.category == Some(ACTION)
            && IdsFresh(r.store)
  {
    SeedIdsFreshIff(4);
    PostPhotoKeepsIdsFresh(SeedStore(4), Some(PostPhotoInput("Test", Some(ACTION), None)), now);
  }

  /** Omitting the category stores the default, PORTRAIT. */
  lemma SeedPostDefaultsCategory(now: int)
    ensures PostPhoto(SeedStore(4), Some(PostPhotoInput("Test", None, None)), now).photo.category == Some(PORTRAIT)
  {
  }
}
