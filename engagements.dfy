/**
 * The engagement table of the product catalogue: one row per (user, product)
 * reaction, each a LIKE or a DISLIKE, and the two counters a product derives
 * from it on every read.
 */
module Engagements {
  import opened Wrappers

  type UserId = nat
  type ProductId = nat
  type EngagementId = nat

  /** The two choices of the `engagement` column. */
  datatype EngagementType = Like | Dislike

  /** Width of the `engagement` character column. */
  const MaxKindLength: nat := 8

  /** The value stored in the column for each choice. */
  function StoredValue(k: EngagementType): string
  {
    match k
    case Like => "LIKE"
    case Dislike => "DISLIKE"
  }

  /** Validation of a submitted `engagement` value against the choices. */
  function ParseKind(s: string): (r: Option<EngagementType>)
    ensures forall k :: r == Some(k) <==> StoredValue(k) == s
    ensures r.Some? ==> |s| <= MaxKindLength
  {
    if s == "LIKE" then Some(Like)
    else if s == "DISLIKE" then Some(Dislike)
    else None
  }

  /** One row of the table: who reacted, to what, and how. */
  datatype Engagement = Engagement(user: UserId, product: ProductId, kind: EngagementType)

  /** The table, keyed by the row's primary key. */
  type Table = map<EngagementId, Engagement>

  /** The `unique_user_product` constraint: no two rows share a (user, product) pair. */
  ghost predicate UniqueUserProduct(t: Table)
  {
    forall i, j :: i in t && j in t && i != j ==>
      t[i].user != t[j].user || t[i].product != t[j].product
  }

  /** The rows that record user `u`'s reaction to product `p`. */
  function PairRows(t: Table, u: UserId, p: ProductId): set<EngagementId>
  {
    set id | id in t && t[id].user == u && t[id].product == p
  }

  /** The constraint holds exactly when every (user, product) pair has at most one row. */
  lemma {:induction false} UniqueIffAtMostOnePerPair(t: Table)
    ensures UniqueUserProduct(t) <==> forall u, p :: |PairRows(t, u, p)| <= 1
  {
    if UniqueUserProduct(t) {
      forall u, p ensures |PairRows(t, u, p)| <= 1 {
        var rows := PairRows(t, u, p);
        if rows != {} {
          var x :| x in rows;
          assert rows == {x} by {
            forall y | y in rows ensures y == x { }
          }
        }
      }
    }
    if !UniqueUserProduct(t) {
      var i, j :| i in t && j in t && i != j && t[i].user == t[j].user && t[i].product == t[j].product;
      var rows := PairRows(t, t[i].user, t[i].product);
      assert {i, j} <= rows;
      SubsetCard({i, j}, rows);
    }
  }

  /** Some row already records user `u`'s reaction to product `p`. */
  predicate HasPair(t: Table, u: UserId, p: ProductId)
  {
    exists id :: id in t && t[id].user == u && t[id].product == p
  }

  /** A pair has a row exactly when its set of rows is non-empty. */
  lemma {:induction false} HasPairIffPairRows(t: Table, u: UserId, p: ProductId)
    ensures HasPair(t, u, p) <==> PairRows(t, u, p) != {}
  {
    if HasPair(t, u, p) {
      var id :| id in t && t[id].user == u && t[id].product == p;
      assert id in PairRows(t, u, p);
    }
  }

  /** The rows that reference product `p`. */
  function RowsOf(t: Table, p: ProductId): set<EngagementId>
  {
    set id | id in t && t[id].product == p
  }

  /** The rows that reference product `p` with reaction `k`. */
  function Matching(t: Table, p: ProductId, k: EngagementType): set<EngagementId>
  {
    set id | id in t && t[id].product == p && t[id].kind == k
  }

  /** Number of rows on product `p` with reaction `k`. */
  function Count(t: Table, p: ProductId, k: EngagementType): (n: nat)
    ensures n == 0 <==> forall id :: id in t && t[id].product == p ==> t[id].kind != k
    ensures n <= |RowsOf(t, p)|
  {
    var m := Matching(t, p, k);
    assert m <= RowsOf(t, p);
    assert m == {} ==> forall id :: id in t && t[id].product == p ==> t[id].kind != k by {
      forall id | id in t && t[id].product == p && t[id].kind == k ensures id in m { }
    }
    SubsetCard(m, RowsOf(t, p));
    |m|
  }

  /** `Product.likes`. */
  function Likes(t: Table, p: ProductId): nat
  {
    Count(t, p, Like)
  }

  /** `Product.dislikes`. */
  function Dislikes(t: Table, p: ProductId): nat
  {
    Count(t, p, Dislike)
  }

  lemma SubsetCard<T>(a: set<T>, b: set<T>)
    requires a <= b
    ensures |a| <= |b|
  {
    assert b == a + (b - a);
  }

  /** A row's type is one of exactly two choices, so the counters partition the product's rows. */
  lemma {:induction false} LikesPlusDislikes(t: Table, p: ProductId)
    ensures Likes(t, p) + Dislikes(t, p) == |RowsOf(t, p)|
  {
    var likes, dislikes := Matching(t, p, Like), Matching(t, p, Dislike);
    assert likes * dislikes == {};
    assert RowsOf(t, p) == likes + dislikes by {
      forall id | id in RowsOf(t, p) ensures id in likes + dislikes {
        if t[id].kind == Like { assert id in likes; } else { assert id in dislikes; }
      }
    }
  }

  /** The users who reacted to product `p` with `k`. */
  function Reactors(t: Table, p: ProductId, k: EngagementType): set<UserId>
  {
    set id | id in t && t[id].product == p && t[id].kind == k :: t[id].user
  }

  /** Under `unique_user_product`, each counter is the number of distinct users with that reaction. */
  lemma {:induction false} CountIsDistinctUsers(t: Table, p: ProductId, k: EngagementType)
    requires UniqueUserProduct(t)
    ensures Count(t, p, k) == |Reactors(t, p, k)|
  {
    assert Reactors(t, p, k) == UsersOf(t, Matching(t, p, k));
    UsersOfCard(t, p, Matching(t, p, k));
  }

  function UsersOf(t: Table, s: set<EngagementId>): set<UserId>
  {
    set id | id in s && id in t :: t[id].user
  }

  lemma {:induction false} UsersOfCard(t: Table, p: ProductId, s: set<EngagementId>)
    requires UniqueUserProduct(t)
    requires forall id :: id in s ==> id in t && t[id].product == p
    ensures |UsersOf(t, s)| == |s|
    decreases s
  {
    if s != {} {
      var x :| x in s;
      assert UsersOf(t, s) == UsersOf(t, s - {x}) + {t[x].user};
      assert t[x].user !in UsersOf(t, s - {x});
      UsersOfCard(t, p, s - {x});
    } else {
      assert UsersOf(t, s) == {};
    }
  }

  // ----- Table operations -----

  /** Rows left after cascading the deletion of product `p`. */
  function WithoutProduct(t: Table, p: ProductId): (r: Table)
    ensures r.Keys == t.Keys - RowsOf(t, p)
    ensures forall id :: id in r ==> r[id] == t[id]
    ensures UniqueUserProduct(t) ==> UniqueUserProduct(r)
  {
    map id | id in t && t[id].product != p :: t[id]
  }

  /** The rows that reference user `u`. */
  function RowsBy(t: Table, u: UserId): set<EngagementId>
  {
    set id | id in t && t[id].user == u
  }

  /** Rows left after cascading the deletion of user `u`. */
  function WithoutUser(t: Table, u: UserId): (r: Table)
    ensures r.Keys == t.Keys - RowsBy(t, u)
    ensures forall id :: id in r ==> r[id] == t[id]
    ensures UniqueUserProduct(t) ==> UniqueUserProduct(r)
  {
    map id | id in t && t[id].user != u :: t[id]
  }

  /** The table after row `id`'s type is updated in place to `k`. */
  function WithKind(t: Table, id: EngagementId, k: EngagementType): (r: Table)
    requires id in t
    ensures r.Keys == t.Keys
    ensures r[id].user == t[id].user && r[id].product == t[id].product && r[id].kind == k
    ensures forall j :: j in r && j != id ==> r[j] == t[j]
    ensures UniqueUserProduct(t) ==> UniqueUserProduct(r)
  {
    t[id := t[id].(kind := k)]
  }

  /** After an insert, a pair has a row exactly when it had one before or the new row is for it. */
  lemma {:induction false} HasPairAfterInsert(t: Table, id: EngagementId, e: Engagement, u: UserId, p: ProductId)
    requires id !in t
    ensures HasPair(t[id := e], u, p) <==> HasPair(t, u, p) || (e.user == u && e.product == p)
  {
    if HasPair(t[id := e], u, p) && !(e.user == u && e.product == p) {
      var j :| j in t[id := e] && t[id := e][j].user == u && t[id := e][j].product == p;
      assert j in t && t[j].user == u && t[j].product == p;
    }
    if HasPair(t, u, p) {
      var j :| j in t && t[j].user == u && t[j].product == p;
      assert j in t[id := e] && t[id := e][j] == t[j];
    }
    if e.user == u && e.product == p {
      assert id in t[id := e] && t[id := e][id] == e;
    }
  }

  // ----- How each operation moves the counters -----

  /** Inserting a new row raises exactly the counter it matches, by one. */
  lemma {:induction false} InsertCount(t: Table, id: EngagementId, e: Engagement, q: ProductId, k: EngagementType)
    requires id !in t
    ensures Count(t[id := e], q, k) == Count(t, q, k) + (if e.product == q && e.kind == k then 1 else 0)
  {
    var t' := t[id := e];
    if e.product == q && e.kind == k {
      assert Matching(t', q, k) == Matching(t, q, k) + {id};
    } else {
      assert Matching(t', q, k) == Matching(t, q, k);
    }
  }

  /** Removing a row lowers exactly the counter it matched, by one. */
  lemma {:induction false} RemoveCount(t: Table, id: EngagementId, q: ProductId, k: EngagementType)
    requires id in t
    ensures Count(t - {id}, q, k) == Count(t, q, k) - (if t[id].product == q && t[id].kind == k then 1 else 0)
  {
    var t' := t - {id};
    if t[id].product == q && t[id].kind == k {
      assert Matching(t', q, k) == Matching(t, q, k) - {id};
    } else {
      assert Matching(t', q, k) == Matching(t, q, k);
    }
  }

  /** Updating a row's type moves one unit from its old counter to its new one, on its own product only. */
  lemma {:induction false} WithKindCount(t: Table, id: EngagementId, k': EngagementType, q: ProductId, k: EngagementType)
    requires id in t
    ensures Count(WithKind(t, id, k'), q, k) ==
      Count(t, q, k)
      - (if t[id].product == q && t[id].kind == k then 1 else 0)
      + (if t[id].product == q && k' == k then 1 else 0)
  {
    var e := t[id].(kind := k');
    assert WithKind(t, id, k') == (t - {id})[id := e];
    RemoveCount(t, id, q, k);
    InsertCount(t - {id}, id, e, q, k);
  }

  /** A DISLIKE turned into a LIKE: one more like, one fewer dislike, every other product untouched. */
  lemma {:induction false} DislikeToLike(t: Table, id: EngagementId)
    requires id in t && t[id].kind == Dislike
    ensures Likes(WithKind(t, id, Like), t[id].product) == Likes(t, t[id].product) + 1
    ensures Dislikes(WithKind(t, id, Like), t[id].product) == Dislikes(t, t[id].product) - 1
    ensures forall q :: q != t[id].product ==>
      Likes(WithKind(t, id, Like), q) == Likes(t, q) && Dislikes(WithKind(t, id, Like), q) == Dislikes(t, q)
  {
    WithKindCount(t, id, Like, t[id].product, Like);
    WithKindCount(t, id, Like, t[id].product, Dislike);
    forall q | q != t[id].product
      ensures Likes(WithKind(t, id, Like), q) == Likes(t, q) && Dislikes(WithKind(t, id, Like), q) == Dislikes(t, q)
    {
      WithKindCount(t, id, Like, q, Like);
      WithKindCount(t, id, Like, q, Dislike);
    }
  }

  /** The rows of `t` on product `p`, keyed as in `t`. */
  function OnProduct(t: Table, p: ProductId): Table
  {
    map id | id in t && t[id].product == p :: t[id]
  }

  /** A product's counters depend on its own rows and on nothing else in the table. */
  lemma {:induction false} CountsAreLocal(t: Table, t': Table, p: ProductId)
    requires OnProduct(t, p) == OnProduct(t', p)
    ensures Likes(t, p) == Likes(t', p) && Dislikes(t, p) == Dislikes(t', p)
  {
    forall k ensures Matching(t, p, k) == Matching(t', p, k) {
      forall id | id in Matching(t, p, k) ensures id in Matching(t', p, k) {
        assert id in OnProduct(t, p);
      }
      forall id | id in Matching(t', p, k) ensures id in Matching(t, p, k) {
        assert id in OnProduct(t', p);
      }
    }
  }

  /** Deleting product `p` zeroes its counters and leaves every other product's as they were. */
  lemma {:induction false} WithoutProductCount(t: Table, p: ProductId, q: ProductId, k: EngagementType)
    ensures Count(WithoutProduct(t, p), q, k) == if q == p then 0 else Count(t, q, k)
  {
    if q == p {
      assert Matching(WithoutProduct(t, p), q, k) == {};
    } else {
      assert Matching(WithoutProduct(t, p), q, k) == Matching(t, q, k);
    }
  }

  /** Deleting user `u` takes away their one reaction to `q`, if they had one, and nothing else. */
  lemma {:induction false} WithoutUserCount(t: Table, u: UserId, q: ProductId, k: EngagementType)
    requires UniqueUserProduct(t)
    ensures Count(WithoutUser(t, u), q, k) ==
      Count(t, q, k) - (if exists id :: id in t && t[id] == Engagement(u, q, k) then 1 else 0)
  {
    var before, after := Matching(t, q, k), Matching(WithoutUser(t, u), q, k);
    if id :| id in t && t[id] == Engagement(u, q, k) {
      assert after == before - {id} by {
        forall j | j in before && j != id ensures t[j].user != u { }
      }
    } else {
      assert after == before;
    }
  }

  /**
   * The counting query as written: products with key `p` inner-joined to
   * their rows of type `k`. It counts each matching row once when the
   * product exists, and nothing when it does not.
   */
  function JoinCount(products: set<ProductId>, t: Table, p: ProductId, k: EngagementType): (n: nat)
    ensures n == if p in products then Count(t, p, k) else 0
  {
    var joined := set pid, id | pid in products && id in t && pid == p && t[id].product == pid && t[id].kind == k :: (pid, id);
    if p in products then
      assert joined == Tagged(p, Matching(t, p, k));
      TaggedCard(p, Matching(t, p, k));
      |joined|
    else
      assert joined == {};
      |joined|
  }

  /** The rows of type `k`, across all products. */
  function OfKind(t: Table, k: EngagementType): set<EngagementId>
  {
    set id | id in t && t[id].kind == k
  }

  /** Number of rows of type `k` across all products. */
  function KindTotal(t: Table, k: EngagementType): nat
  {
    |OfKind(t, k)|
  }

  /** Inserting a new row raises the table-wide total of its own type by one and leaves the other. */
  lemma {:induction false} InsertKindTotal(t: Table, id: EngagementId, e: Engagement, k: EngagementType)
    requires id !in t
    ensures KindTotal(t[id := e], k) == KindTotal(t, k) + (if e.kind == k then 1 else 0)
  {
    if e.kind == k {
      assert OfKind(t[id := e], k) == OfKind(t, k) + {id};
    } else {
      assert OfKind(t[id := e], k) == OfKind(t, k);
    }
  }

  function Tagged(p: ProductId, s: set<EngagementId>): set<(ProductId, EngagementId)>
  {
    set id | id in s :: (p, id)
  }

  lemma {:induction false} TaggedCard(p: ProductId, s: set<EngagementId>)
    ensures |Tagged(p, s)| == |s|
    decreases s
  {
    if s != {} {
      var x :| x in s;
      assert Tagged(p, s) == Tagged(p, s - {x}) + {(p, x)};
      TaggedCard(p, s - {x});
    } else {
      assert Tagged(p, s) == {};
    }
  }
}
