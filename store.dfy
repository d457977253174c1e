/**
 * The datastore the product models live in: the users, the products and the
 * engagement table, changed in place by create, update and delete, with the
 * foreign-key and uniqueness constraints kept as the object invariant.
 */
module Store {
  import opened Wrappers
  import opened Engagements
  import Products

  /** The fields of a submitted engagement: its two foreign keys and its type. */
  datatype EngagementField = UserField | ProductField | KindField

  /** Why an operation on the store was refused; the store is then unchanged. */
  datatype Error =
    | NotFound
    | InvalidProduct(productFields: set<Products.Field>)
    | InvalidEngagement(engagementFields: set<EngagementField>)
    | DuplicateEngagement

  class Database {
    var users: set<UserId>
    var products: map<ProductId, Products.Product>
    var engagements: Table
    // next primary key handed out for each table; keys are never reused
    var nextUser: nat
    var nextProduct: nat
    var nextEngagement: nat

    /** The constraints the datastore enforces on every committed state. */
    ghost predicate Valid()
      reads this
    {
      && UniqueUserProduct(engagements)
      && (forall id :: id in engagements ==>
            engagements[id].user in users && engagements[id].product in products)
      && Products.AllValid(products)
      && (forall u :: u in users ==> u < nextUser)
      && (forall p :: p in products ==> p < nextProduct)
      && (forall id :: id in engagements ==> id < nextEngagement)
    }

    constructor ()
      ensures Valid()
      ensures users == {} && products == map[] && engagements == map[]
    {
      users, products, engagements := {}, map[], map[];
      nextUser, nextProduct, nextEngagement := 0, 0, 0;
    }

    /** `Product.likes`: products with this key joined to their LIKE rows, counted. */
    function Likes(p: ProductId): (n: nat)
      reads this
      requires Valid()
      ensures n == Engagements.Likes(engagements, p)
    {
      JoinCount(products.Keys, engagements, p, Like)
    }

    /** `Product.dislikes`: products with this key joined to their DISLIKE rows, counted. */
    function Dislikes(p: ProductId): (n: nat)
      reads this
      requires Valid()
      ensures n == Engagements.Dislikes(engagements, p)
    {
      JoinCount(products.Keys, engagements, p, Dislike)
    }

    /** Registers a new user under a key never used before. */
    method CreateUser() returns (u: UserId)
      requires Valid()
      modifies this
      ensures Valid()
      ensures u !in old(users) && users == old(users) + {u}
      ensures products == old(products) && engagements == old(engagements)
      ensures forall p :: !HasPair(engagements, u, p)
    {
      u := nextUser;
      users := users + {u};
      nextUser := nextUser + 1;
    }

    /** Inserts a product after validating its fields; the stripped values are stored. */
    method CreateProduct(name: string, description: string) returns (r: Result<ProductId, Error>)
      requires Valid()
      modifies this
      ensures Valid()
      ensures users == old(users) && engagements == old(engagements)
      ensures r.Success? <==> Products.Check(name, description).Success?
      ensures r.Failure? ==>
                && r.error == InvalidProduct(Products.Check(name, description).error)
                && products == old(products)
      ensures r.Success? ==>
                && r.value !in old(products)
                && products == old(products)[r.value := Products.Check(name, description).value]
                && RowsOf(engagements, r.value) == {}
    {
      var checked := Products.Check(name, description);
      if checked.Failure? {
        return Failure(InvalidProduct(checked.error));
      }
      var p := nextProduct;
      Products.AllValidPut(products, p, checked.value);
      products := products[p := checked.value];
      nextProduct := nextProduct + 1;
      r := Success(p);
    }

    /**
     * Updates a product after validating the fields given: a full update
     * must give both, a partial one keeps the stored value of a field it
     * omits. The product's engagements are untouched.
     */
    method UpdateProduct(p: ProductId, name: Option<string>, description: Option<string>, partial: bool)
      returns (r: Result<(), Error>)
      requires Valid()
      modifies this
      ensures Valid()
      ensures users == old(users) && engagements == old(engagements)
      ensures r.Success? <==> p in old(products) && Products.Revise(old(products)[p], name, description, partial).Success?
      ensures p !in old(products) ==> r == Failure(NotFound)
      ensures p in old(products) && r.Failure? ==>
                r == Failure(InvalidProduct(Products.Revise(old(products)[p], name, description, partial).error))
      ensures r.Failure? ==> products == old(products)
      ensures r.Success? ==>
                products == old(products)[p := Products.Revise(old(products)[p], name, description, partial).value]
    {
      if p !in products {
        return Failure(NotFound);
      }
      var revised := Products.Revise(products[p], name, description, partial);
      if revised.Failure? {
        return Failure(InvalidProduct(revised.error));
      }
      Products.AllValidPut(products, p, revised.value);
      products := products[p := revised.value];
      r := Success(());
    }

    /**
     * Inserts user `u`'s reaction `kind` to product `p`. Every invalid field
     * (a dangling user or product, a value outside the two choices) is
     * reported first; a pair that already has a row is refused, never
     * overwritten.
     */
    method CreateEngagement(u: UserId, p: ProductId, kind: string) returns (r: Result<EngagementId, Error>)
      requires Valid()
      modifies this
      ensures Valid()
      ensures users == old(users) && products == old(products)
      ensures r.Success? <==>
                u in old(users) && p in old(products) && ParseKind(kind).Some? && !HasPair(old(engagements), u, p)
      ensures (u !in old(users) || p !in old(products) || ParseKind(kind).None?) <==>
                r.Failure? && r.error.InvalidEngagement?
      ensures r.Failure? && r.error.InvalidEngagement? ==>
                && (UserField in r.error.engagementFields <==> u !in old(users))
                && (ProductField in r.error.engagementFields <==> p !in old(products))
                && (KindField in r.error.engagementFields <==> ParseKind(kind).None?)
      ensures r == Failure(DuplicateEngagement) <==>
                u in old(users) && p in old(products) && ParseKind(kind).Some? && HasPair(old(engagements), u, p)
      ensures r.Failure? ==> engagements == old(engagements)
      ensures r.Success? ==>
                && r.value !in old(engagements)
                && engagements == old(engagements)[r.value := Engagement(u, p, ParseKind(kind).value)]
    {
      var k := ParseKind(kind);
      var invalid := (if u !in users then {UserField} else {})
        + (if p !in products then {ProductField} else {})
        + (if k.None? then {KindField} else {});
      if invalid != {} {
        return Failure(InvalidEngagement(invalid));
      }
      if HasPair(engagements, u, p) {
        return Failure(DuplicateEngagement);
      }
      var id := nextEngagement;
      engagements := engagements[id := Engagement(u, p, k.value)];
      nextEngagement := nextEngagement + 1;
      r := Success(id);
    }

    /** Updates the type of an existing row in place, after validating the new value. */
    method SetKind(id: EngagementId, kind: string) returns (r: Result<(), Error>)
      requires Valid()
      modifies this
      ensures Valid()
      ensures users == old(users) && products == old(products)
      ensures r.Success? <==> id in old(engagements) && ParseKind(kind).Some?
      ensures id !in old(engagements) ==> r == Failure(NotFound)
      ensures id in old(engagements) && ParseKind(kind).None? ==> r == Failure(InvalidEngagement({KindField}))
      ensures r.Failure? ==> engagements == old(engagements)
      ensures r.Success? ==> engagements == WithKind(old(engagements), id, ParseKind(kind).value)
    {
      if id !in engagements {
        return Failure(NotFound);
      }
      var k := ParseKind(kind);
      if k.None? {
        return Failure(InvalidEngagement({KindField}));
      }
      engagements := WithKind(engagements, id, k.value);
      r := Success(());
    }

    /** Deletes one row. */
    method DeleteEngagement(id: EngagementId) returns (r: Result<(), Error>)
      requires Valid()
      modifies this
      ensures Valid()
      ensures users == old(users) && products == old(products)
      ensures r.Success? <==> id in old(engagements)
      ensures r.Failure? ==> r.error == NotFound && engagements == old(engagements)
      ensures r.Success? ==> engagements == old(engagements) - {id}
    {
      if id !in engagements {
        return Failure(NotFound);
      }
      engagements := engagements - {id};
      r := Success(());
    }

    /** Deletes a product and, by cascade, exactly the rows that reference it. */
    method DeleteProduct(p: ProductId) returns (r: Result<(), Error>)
      requires Valid()
      modifies this
      ensures Valid()
      ensures users == old(users)
      ensures r.Success? <==> p in old(products)
      ensures r.Failure? ==> r.error == NotFound && products == old(products) && engagements == old(engagements)
      ensures r.Success? ==> products == old(products) - {p}
      ensures r.Success? ==> engagements == WithoutProduct(old(engagements), p)
      ensures r.Success? ==> engagements.Keys == old(engagements).Keys - RowsOf(old(engagements), p)
    {
      if p !in products {
        return Failure(NotFound);
      }
      Products.AllValidRemove(products, p);
      products := products - {p};
      engagements := WithoutProduct(engagements, p);
      r := Success(());
    }

    /** Deletes a user and, by cascade, exactly the rows that reference them. */
    method DeleteUser(u: UserId) returns (r: Result<(), Error>)
      requires Valid()
      modifies this
      ensures Valid()
      ensures products == old(products)
      ensures r.Success? <==> u in old(users)
      ensures r.Failure? ==> r.error == NotFound && users == old(users) && engagements == old(engagements)
      ensures r.Success? ==> users == old(users) - {u}
      ensures r.Success? ==> engagements == WithoutUser(old(engagements), u)
      ensures r.Success? ==> engagements.Keys == old(engagements).Keys - RowsBy(old(engagements), u)
    {
      if u !in users {
        return Failure(NotFound);
      }
      users := users - {u};
      engagements := WithoutUser(engagements, u);
      r := Success(());
    }
  }
}
