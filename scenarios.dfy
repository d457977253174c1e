/**
 * Clients of the store that replay the repository's test scenarios and prove
 * the counts those tests observe, from the store's contracts alone.
 */
module Scenarios {
  import opened Wrappers
  import opened Engagements
  import opened Store
  import Products

  /** Submits a product whose values are already valid and stripped; it is stored as given. */
  method AddProduct(db: Database, name: string, description: string) returns (p: ProductId)
    requires db.Valid() && Products.Valid(Products.Product(name, description))
    modifies db
    ensures db.Valid()
    ensures db.users == old(db.users) && db.engagements == old(db.engagements)
    ensures p !in old(db.products) && db.products.Keys == old(db.products).Keys + {p}
    ensures RowsOf(db.engagements, p) == {}
  {
    Products.CheckStored(Products.Product(name, description));
    var created := db.CreateProduct(name, description);
    p := created.value;
  }

  /**
   * Submits the stored value of `k` for a pair that has no row yet, as the
   * tests submit `EngagementType.LIKE` or `EngagementType.DISLIKE`; the row
   * is inserted under a fresh key and moves the counters it matches.
   */
  method Engage(db: Database, u: UserId, p: ProductId, k: EngagementType) returns (id: EngagementId)
    requires db.Valid() && u in db.users && p in db.products && !HasPair(db.engagements, u, p)
    modifies db
    ensures db.Valid()
    ensures db.users == old(db.users) && db.products == old(db.products)
    ensures id in db.engagements && db.engagements[id] == Engagement(u, p, k)
    ensures Likes(db.engagements, p) == old(Likes(db.engagements, p)) + (if k == Like then 1 else 0)
    ensures Dislikes(db.engagements, p) == old(Dislikes(db.engagements, p)) + (if k == Dislike then 1 else 0)
    ensures KindTotal(db.engagements, Like) == old(KindTotal(db.engagements, Like)) + (if k == Like then 1 else 0)
    ensures KindTotal(db.engagements, Dislike) == old(KindTotal(db.engagements, Dislike)) + (if k == Dislike then 1 else 0)
    ensures forall v, q :: HasPair(db.engagements, v, q) <==> HasPair(old(db.engagements), v, q) || (v == u && q == p)
  {
    ghost var t := db.engagements;
    var created := db.CreateEngagement(u, p, StoredValue(k));
    id := created.value;
    ghost var e := Engagement(u, p, k);
    InsertCount(t, id, e, p, Like);
    InsertCount(t, id, e, p, Dislike);
    InsertKindTotal(t, id, e, Like);
    InsertKindTotal(t, id, e, Dislike);
    forall v, q ensures HasPair(db.engagements, v, q) <==> HasPair(t, v, q) || (v == u && q == p) {
      HasPairAfterInsert(t, id, e, v, q);
    }
  }

  /** A fresh store holding three users, the product `test1`, and no reactions. */
  method ThreeUsersOneProduct() returns (db: Database, u0: UserId, u1: UserId, u2: UserId, p: ProductId)
    ensures fresh(db) && db.Valid()
    ensures u0 in db.users && u1 in db.users && u2 in db.users
    ensures u0 != u1 && u0 != u2 && u1 != u2
    ensures p in db.products && db.engagements == map[]
  {
    assert Products.Valid(Products.Product("test1", "desc1"));
    db := new Database();
    u0 := db.CreateUser();
    u1 := db.CreateUser();
    u2 := db.CreateUser();
    p := AddProduct(db, "test1", "desc1");
  }

  /** A fresh store holding one user, the products `test1` to `test4`, and no reactions. */
  method OneUserFourProducts() returns (db: Database, u: UserId, p0: ProductId, p1: ProductId, p2: ProductId, p3: ProductId)
    ensures fresh(db) && db.Valid()
    ensures u in db.users
    ensures p0 in db.products && p1 in db.products && p2 in db.products && p3 in db.products
    ensures p0 != p1 && p0 != p2 && p0 != p3 && p1 != p2 && p1 != p3 && p2 != p3
    ensures db.engagements == map[]
  {
    assert Products.Valid(Products.Product("test1", "desc1"));
    assert Products.Valid(Products.Product("test2", "desc2"));
    assert Products.Valid(Products.Product("test3", "desc3"));
    assert Products.Valid(Products.Product("test4", "desc4"));
    db := new Database();
    u := db.CreateUser();
    p0 := AddProduct(db, "test1", "desc1");
    p1 := AddProduct(db, "test2", "desc2");
    p2 := AddProduct(db, "test3", "desc3");
    p3 := AddProduct(db, "test4", "desc4");
  }

  /** Two LIKEs and one DISLIKE from three users on one product. */
  method MixedEngagementsScenario() returns (likes: nat, dislikes: nat)
    ensures likes == 2 && dislikes == 1
  {
    var db, u0, u1, u2, p := ThreeUsersOneProduct();
    assert Likes(db.engagements, p) == 0 && Dislikes(db.engagements, p) == 0;
    assert !HasPair(db.engagements, u0, p) && !HasPair(db.engagements, u1, p) && !HasPair(db.engagements, u2, p);
    var r0 := Engage(db, u0, p, Like);
    assert !HasPair(db.engagements, u1, p) && !HasPair(db.engagements, u2, p);
    var r1 := Engage(db, u1, p, Like);
    assert !HasPair(db.engagements, u2, p);
    var r2 := Engage(db, u2, p, Dislike);
    likes, dislikes := db.Likes(p), db.Dislikes(p);
  }

  /** One LIKE and two DISLIKEs from three users on one product; `last` is the final DISLIKE. */
  method OneLikeTwoDislikes() returns (db: Database, p: ProductId, last: EngagementId)
    ensures fresh(db) && db.Valid()
    ensures db.Likes(p) == 1 && db.Dislikes(p) == 2
    ensures last in db.engagements && db.engagements[last].product == p && db.engagements[last].kind == Dislike
  {
    var u0, u1, u2;
    db, u0, u1, u2, p := ThreeUsersOneProduct();
    assert Likes(db.engagements, p) == 0 && Dislikes(db.engagements, p) == 0;
    assert !HasPair(db.engagements, u0, p) && !HasPair(db.engagements, u1, p) && !HasPair(db.engagements, u2, p);
    var r0 := Engage(db, u0, p, Like);
    assert !HasPair(db.engagements, u1, p) && !HasPair(db.engagements, u2, p);
    var r1 := Engage(db, u1, p, Dislike);
    assert !HasPair(db.engagements, u2, p);
    last := Engage(db, u2, p, Dislike);
  }

  /**
   * One LIKE and two DISLIKEs on one product, then the last DISLIKE is
   * updated in place to a LIKE.
   */
  method FlipToLikeScenario()
    returns (likesBefore: nat, dislikesBefore: nat, patched: Result<(), Error>, likesAfter: nat, dislikesAfter: nat)
    ensures likesBefore == 1 && dislikesBefore == 2
    ensures patched.Success?
    ensures likesAfter == 2 && dislikesAfter == 1
  {
    var db, p, last := OneLikeTwoDislikes();
    likesBefore, dislikesBefore := db.Likes(p), db.Dislikes(p);
    ghost var t := db.engagements;
    patched := db.SetKind(last, StoredValue(Like));
    DislikeToLike(t, last);
    likesAfter, dislikesAfter := db.Likes(p), db.Dislikes(p);
  }

  /** A second reaction by the same user to the same product is refused and changes no count. */
  method DuplicateEngagementScenario() returns (second: Result<EngagementId, Error>, likes: nat, dislikes: nat)
    ensures second == Failure(DuplicateEngagement)
    ensures likes == 1 && dislikes == 0
  {
    assert Products.Valid(Products.Product("test", "desc"));
    var db := new Database();
    var u := db.CreateUser();
    var p := AddProduct(db, "test", "desc");
    assert db.engagements == map[];
    assert Likes(db.engagements, p) == 0 && Dislikes(db.engagements, p) == 0;
    assert !HasPair(db.engagements, u, p);
    var first := Engage(db, u, p, Like);
    second := db.CreateEngagement(u, p, StoredValue(Dislike));
    likes, dislikes := db.Likes(p), db.Dislikes(p);
  }

  /** The other reaction type. */
  function Opposite(k: EngagementType): (r: EngagementType)
    ensures r != k
  {
    if k == Like then Dislike else Like
  }

  /** User `u` gives reaction `k` to two products it has not reacted to; the table-wide total of `k` rises by two. */
  method EngageTwo(db: Database, u: UserId, pa: ProductId, pb: ProductId, k: EngagementType)
    requires db.Valid() && u in db.users && pa in db.products && pb in db.products && pa != pb
    requires !HasPair(db.engagements, u, pa) && !HasPair(db.engagements, u, pb)
    modifies db
    ensures db.Valid()
    ensures db.users == old(db.users) && db.products == old(db.products)
    ensures KindTotal(db.engagements, k) == old(KindTotal(db.engagements, k)) + 2
    ensures KindTotal(db.engagements, Opposite(k)) == old(KindTotal(db.engagements, Opposite(k)))
    ensures forall q :: q != pa && q != pb ==> (HasPair(db.engagements, u, q) <==> HasPair(old(db.engagements), u, q))
  {
    var ra := Engage(db, u, pa, k);
    assert !HasPair(db.engagements, u, pb);
    var rb := Engage(db, u, pb, k);
  }

  /**
   * One user likes two products and dislikes two others: the table then
   * holds two LIKE rows and two DISLIKE rows.
   */
  method MultipleProductsScenario() returns (likeRows: nat, dislikeRows: nat)
    ensures likeRows == 2 && dislikeRows == 2
  {
    var db, u, p0, p1, p2, p3 := OneUserFourProducts();
    assert KindTotal(db.engagements, Like) == 0 && KindTotal(db.engagements, Dislike) == 0;
    assert !HasPair(db.engagements, u, p0) && !HasPair(db.engagements, u, p1);
    assert !HasPair(db.engagements, u, p2) && !HasPair(db.engagements, u, p3);
    EngageTwo(db, u, p0, p1, Like);
    EngageTwo(db, u, p2, p3, Dislike);
    likeRows, dislikeRows := KindTotal(db.engagements, Like), KindTotal(db.engagements, Dislike);
  }
}
