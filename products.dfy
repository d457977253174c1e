/**
 * The product record and the rules its two character columns enforce on a
 * submitted value: surrounding whitespace is stripped, and the stripped value
 * must be non-blank, free of NUL characters and fit the column's width.
 */
module Products {
  import opened Wrappers

  const MaxNameLength: nat := 30
  const MaxDescriptionLength: nat := 255

  datatype Product = Product(name: string, description: string)

  /** The fields a submitted product can violate. */
  datatype Field = Name | Description

  /** The whitespace characters stripped from a submitted value. */
  predicate IsSpace(c: char)
  {
    c == ' ' || c == '\t' || c == '\n' || c == '\r' || c == '\U{0B}' || c == '\U{0C}'
  }

  /** Neither end of `s` is whitespace. */
  predicate Trimmed(s: string)
  {
    s == [] || (!IsSpace(s[0]) && !IsSpace(s[|s| - 1]))
  }

  /** The first index at or after `i` that does not hold whitespace, or `|s|`. */
  function TrimFrom(s: string, i: nat): (j: nat)
    requires i <= |s|
    ensures i <= j <= |s|
    ensures forall k :: i <= k < j ==> IsSpace(s[k])
    ensures j < |s| ==> !IsSpace(s[j])
    decreases |s| - i
  {
    if i < |s| && IsSpace(s[i]) then TrimFrom(s, i + 1) else i
  }

  /** The end of `s[lo..j]` once its trailing whitespace is cut off. */
  function TrimTo(s: string, lo: nat, j: nat): (e: nat)
    requires lo <= j <= |s|
    ensures lo <= e <= j
    ensures forall k :: e <= k < j ==> IsSpace(s[k])
    ensures lo < e ==> !IsSpace(s[e - 1])
    decreases j
  {
    if lo < j && IsSpace(s[j - 1]) then TrimTo(s, lo, j - 1) else j
  }

  /**
   * `s` with the whitespace at both ends stripped: the result has no
   * whitespace at either end, and it is empty exactly when `s` is all
   * whitespace.
   */
  function Trim(s: string): (r: string)
    ensures Trimmed(r)
    ensures r == [] <==> forall i :: 0 <= i < |s| ==> IsSpace(s[i])
  {
    var i := TrimFrom(s, 0);
    s[i..TrimTo(s, i, |s|)]
  }

  /**
   * Stripping keeps the value itself: the result is the slice of `s` left
   * after cutting only whitespace off either end.
   */
  lemma {:induction false} TrimIsSlice(s: string)
    ensures exists i, j ::
              && 0 <= i <= j <= |s| && Trim(s) == s[i..j]
              && (forall k :: 0 <= k < i ==> IsSpace(s[k]))
              && (forall k :: j <= k < |s| ==> IsSpace(s[k]))
  {
    var i := TrimFrom(s, 0);
    var j := TrimTo(s, i, |s|);
    assert Trim(s) == s[i..j];
  }

  /** Stripping a value that has no whitespace at either end leaves it as it is. */
  lemma {:induction false} TrimOfTrimmed(s: string)
    requires Trimmed(s)
    ensures Trim(s) == s
  {
    if s != [] {
      assert TrimFrom(s, 0) == 0;
      assert TrimTo(s, 0, |s|) == |s|;
      assert s[0..|s|] == s;
    }
  }

  /** No character of `s` is NUL. */
  predicate NoNul(s: string)
  {
    forall i :: 0 <= i < |s| ==> s[i] != '\0'
  }

  /**
   * A stored column value: stripped, non-blank, within `max` characters, and
   * free of NUL characters, which every character field of the serializer refuses.
   */
  predicate ValidText(s: string, max: nat)
  {
    Trimmed(s) && 0 < |s| <= max && NoNul(s)
  }

  /** A product whose two columns both hold valid values. */
  predicate Valid(p: Product)
  {
    ValidText(p.name, MaxNameLength) && ValidText(p.description, MaxDescriptionLength)
  }

  /** Every product of a table holds valid values. */
  predicate AllValid(table: map<nat, Product>)
  {
    forall k :: k in table ==> Valid(table[k])
  }

  /** Storing a valid product keeps every product of the table valid. */
  lemma {:induction false} AllValidPut(table: map<nat, Product>, key: nat, p: Product)
    requires AllValid(table) && Valid(p)
    ensures AllValid(table[key := p])
  {
  }

  /** Removing a product keeps every product of the table valid. */
  lemma {:induction false} AllValidRemove(table: map<nat, Product>, key: nat)
    requires AllValid(table)
    ensures AllValid(table - {key})
  {
  }

  /**
   * Field validation of a submitted product. Each value is stripped first;
   * every field that is then blank or over its width is reported, and a
   * product with no report is stored with the stripped values.
   */
  function Check(name: string, description: string): (r: Result<Product, set<Field>>)
    ensures r.Success? <==> Valid(Product(Trim(name), Trim(description)))
    ensures r.Success? ==> r.value == Product(Trim(name), Trim(description))
    ensures r.Failure? ==>
              && r.error != {}
              && (Name in r.error <==> !ValidText(Trim(name), MaxNameLength))
              && (Description in r.error <==> !ValidText(Trim(description), MaxDescriptionLength))
  {
    var n, d := Trim(name), Trim(description);
    var errors := (if |n| == 0 || |n| > MaxNameLength || !NoNul(n) then {Name} else {})
      + (if |d| == 0 || |d| > MaxDescriptionLength || !NoNul(d) then {Description} else {});
    if errors == {} then Success(Product(n, d)) else Failure(errors)
  }

  /** A value made only of whitespace is blank, and is refused. */
  lemma {:induction false} BlankNameRefused(name: string, description: string)
    requires forall i :: 0 <= i < |name| ==> IsSpace(name[i])
    ensures Check(name, description).Failure? && Name in Check(name, description).error
  {
    assert Trim(name) == [];
  }

  /** A stored product passes validation again unchanged, so resubmitting it is a no-op. */
  lemma {:induction false} CheckStored(p: Product)
    requires Valid(p)
    ensures Check(p.name, p.description) == Success(p)
  {
    TrimOfTrimmed(p.name);
    TrimOfTrimmed(p.description);
  }

  /**
   * Validation of an update to a stored product. A full update (`partial`
   * false) must give both fields, and each one it omits is reported as
   * required; a partial update keeps the stored value of a field it omits.
   * The fields given are checked as on creation, and every error is
   * reported together.
   */
  function Revise(stored: Product, name: Option<string>, description: Option<string>, partial: bool)
    : (r: Result<Product, set<Field>>)
    requires Valid(stored)
    ensures partial || (name.Some? && description.Some?) ==>
              r == Check(name.GetOr(stored.name), description.GetOr(stored.description))
    ensures !partial && name.None? ==> r.Failure? && Name in r.error
    ensures !partial && description.None? ==> r.Failure? && Description in r.error
    ensures r.Success? ==> Valid(r.value)
    ensures name.None? && r.Success? ==> r.value.name == stored.name
    ensures description.None? && r.Success? ==> r.value.description == stored.description
  {
    var n, d := name.GetOr(stored.name), description.GetOr(stored.description);
    assert name.None? ==> ValidText(Trim(n), MaxNameLength) by {
      if name.None? { TrimOfTrimmed(stored.name); }
    }
    assert description.None? ==> ValidText(Trim(d), MaxDescriptionLength) by {
      if description.None? { TrimOfTrimmed(stored.description); }
    }
    var checked := Check(n, d);
    var missing := (if !partial && name.None? then {Name} else {})
      + (if !partial && description.None? then {Description} else {});
    if missing == {} then
      checked
    else if checked.Success? then
      Failure(missing)
    else
      Failure(missing + checked.error)
  }

  /**
   * The fields a refused update reports: a given field exactly when its
   * stripped value breaks the column's rules, an omitted field exactly when
   * the update is a full one.
   */
  lemma {:induction false} ReviseReports(stored: Product, name: Option<string>, description: Option<string>, partial: bool)
    requires Valid(stored)
    ensures Revise(stored, name, description, partial).Failure? ==>
              && (Name in Revise(stored, name, description, partial).error <==>
                    if name.Some? then !ValidText(Trim(name.value), MaxNameLength) else !partial)
              && (Description in Revise(stored, name, description, partial).error <==>
                    if description.Some? then !ValidText(Trim(description.value), MaxDescriptionLength) else !partial)
  {
    TrimOfTrimmed(stored.name);
    TrimOfTrimmed(stored.description);
  }
}
