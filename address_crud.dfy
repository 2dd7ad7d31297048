/** Address lookups, address creation and the default-address reassignment. */
module AddressCrud {
  import opened Base
  import opened Records
  import opened Queries
  import opened Store

  /** The page size the clearing step of SetAsDefault inherits from GetMultiByUser's default limit. */
  const DefaultLimit := 100

  function HasId(id: Id): Address -> bool { (a: Address) => a.id == id }
  function OwnedBy(userId: Id): Address -> bool { (a: Address) => a.userId == userId }
  function DefaultOf(userId: Id): Address -> bool { (a: Address) => a.userId == userId && a.isDefault }

  /** The position of the address with key `id`, as the generic lookup by primary key finds it. */
  function Find(rows: seq<Address>, id: Id): (r: Option<nat>)
    ensures r.Some? ==> r.value < |rows| && rows[r.value].id == id
    ensures r.Some? ==> forall j :: 0 <= j < r.value ==> rows[j].id != id
    ensures r.None? <==> forall i :: 0 <= i < |rows| ==> rows[i].id != id
  {
    IndexWhere(rows, HasId(id))
  }

  /** The address with key `id`, or none. */
  function Get(rows: seq<Address>, id: Id): (r: Option<Address>)
    ensures r.Some? ==> r.value in rows && r.value.id == id
    ensures r.None? <==> forall i :: 0 <= i < |rows| ==> rows[i].id != id
  {
    match Find(rows, id)
    case None => None
    case Some(k) => Some(rows[k])
  }

  /** The user's addresses, paged. */
  function GetMultiByUser(rows: seq<Address>, userId: Id, skip: nat, limit: nat): (r: seq<Address>)
    ensures |r| <= limit
    ensures |r| == Min(limit, if skip <= |Filter(rows, OwnedBy(userId))| then |Filter(rows, OwnedBy(userId))| - skip else 0)
    ensures forall i :: 0 <= i < |r| ==> r[i] == Filter(rows, OwnedBy(userId))[skip + i]
    ensures forall i :: 0 <= i < |r| ==> r[i] in rows && r[i].userId == userId
    ensures skip == 0 && |Filter(rows, OwnedBy(userId))| <= limit ==>
      forall i :: 0 <= i < |rows| && rows[i].userId == userId ==> rows[i] in r
  {
    Select(rows, OwnedBy(userId), skip, limit)
  }

  /** A default address of the user, or none when the user has no default address. */
  function GetDefaultAddress(rows: seq<Address>, userId: Id): (r: Option<Address>)
    ensures r.Some? ==> r.value in rows && r.value.userId == userId && r.value.isDefault
    ensures r.None? <==> forall i :: 0 <= i < |rows| ==> !(rows[i].userId == userId && rows[i].isDefault)
  {
    First(rows, DefaultOf(userId))
  }

  predicate IsDefaultOf(rows: seq<Address>, userId: Id, i: int)
  {
    0 <= i < |rows| && rows[i].userId == userId && rows[i].isDefault
  }

  /** The user has at most one default address. */
  ghost predicate AtMostOneDefault(rows: seq<Address>, userId: Id)
  {
    forall i, j :: IsDefaultOf(rows, userId, i) && IsDefaultOf(rows, userId, j) ==> i == j
  }

  /** Every user has at most one default address. */
  ghost predicate DefaultsUnique(rows: seq<Address>)
  {
    forall u :: AtMostOneDefault(rows, u)
  }

  /** The user has exactly one default address, at position `k`. */
  ghost predicate OnlyDefaultAt(rows: seq<Address>, userId: Id, k: nat)
  {
    IsDefaultOf(rows, userId, k) && forall j :: IsDefaultOf(rows, userId, j) ==> j == k
  }

  /** The fields an address is created from. */
  datatype AddressCreate = AddressCreate(
    street: string, city: string, state: Option<string>, zipCode: string, country: string, isDefault: bool)

  function NewAddress(id: Id, input: AddressCreate, userId: Id): Address
  {
    Address(id, userId, input.street, input.city, input.state, input.zipCode, input.country, input.isDefault)
  }

  /** Stores a new address for `userId` built from `input`, under the next free key. */
  method CreateWithUser(db: Session, input: AddressCreate, userId: Id) returns (a: Address)
    requires db.Valid()
    modifies db`addresses, db`nextId
    ensures db.Valid()
    ensures a == NewAddress(old(db.nextId), input, userId)
    ensures db.addresses == old(db.addresses) + [a] && db.nextId == old(db.nextId) + 1
  {
    a := NewAddress(db.nextId, input, userId);
    db.addresses := db.addresses + [a];
    db.nextId := db.nextId + 1;
  }

  /**
   * Adding an address keeps every user's default unique exactly when the
   * new address is not flagged default or its owner had no default yet:
   * creation itself never clears other defaults.
   */
  lemma CreateKeepsDefaultsUniqueIff(rows: seq<Address>, a: Address)
    requires DefaultsUnique(rows)
    ensures DefaultsUnique(rows + [a]) <==> !a.isDefault || GetDefaultAddress(rows, a.userId).None?
  {
    var rows' := rows + [a];
    if a.isDefault && GetDefaultAddress(rows, a.userId).Some? {
      var k :| 0 <= k < |rows| && rows[k].userId == a.userId && rows[k].isDefault;
      assert IsDefaultOf(rows', a.userId, k) && IsDefaultOf(rows', a.userId, |rows|);
      assert !AtMostOneDefault(rows', a.userId);
    } else {
      assert a.isDefault ==> forall i :: 0 <= i < |rows| ==> !IsDefaultOf(rows, a.userId, i);
      forall u ensures AtMostOneDefault(rows', u) {
        assert forall i :: IsDefaultOf(rows', u, i) && i < |rows| ==> IsDefaultOf(rows, u, i);
        assert AtMostOneDefault(rows, u);
      }
    }
  }

  /** How many of the user's addresses come before position `i`. */
  function OwnedBefore(rows: seq<Address>, userId: Id, i: nat): nat
    requires i <= |rows|
  {
    |Filter(rows[..i], OwnedBy(userId))|
  }

  /** Row `i` after the clearing step: the user's first `cap` addresses lose the default flag. */
  function ClearedAt(rows: seq<Address>, userId: Id, cap: nat, i: nat): Address
    requires i < |rows|
  {
    if rows[i].userId == userId && OwnedBefore(rows, userId, i) < cap
    then rows[i].(isDefault := false) else rows[i]
  }

  function ClearDefaults(rows: seq<Address>, userId: Id, cap: nat): (r: seq<Address>)
    ensures |r| == |rows|
    ensures forall i :: 0 <= i < |rows| ==> r[i] == ClearedAt(rows, userId, cap, i)
  {
    seq(|rows|, i requires 0 <= i < |rows| => ClearedAt(rows, userId, cap, i))
  }

  /**
   * The table after making address `addressId` the default of `userId`,
   * clearing the flag on the user's first `cap` addresses first. It fails
   * when the address is missing or belongs to someone else; on success the
   * target is flagged, each other row is either unchanged or one of the
   * user's addresses with its flag cleared, and no other field changes:
   * exactly the user's first `cap` addresses lose the flag, and every row
   * after them (other than the target) is kept.
   */
  function SetDefault(rows: seq<Address>, addressId: Id, userId: Id, cap: nat): (r: Result<seq<Address>>)
    ensures r.Failure? <==> Find(rows, addressId).None? || rows[Find(rows, addressId).value].userId != userId
    ensures r.Failure? ==> r.error == NotOwned
    ensures r.Success? ==>
      var k := Find(rows, addressId).value;
      && |r.value| == |rows|
      && r.value[k] == rows[k].(isDefault := true)
      && forall i :: 0 <= i < |rows| && i != k ==>
           r.value[i] == rows[i] || (rows[i].userId == userId && r.value[i] == rows[i].(isDefault := false))
    ensures r.Success? ==> forall i :: 0 <= i < |rows| && rows[i].userId != userId ==> r.value[i] == rows[i]
    ensures r.Success? ==> forall i ::
      (0 <= i < |rows| && i != Find(rows, addressId).value && rows[i].userId == userId
       && OwnedBefore(rows, userId, i) < cap) ==> !r.value[i].isDefault
    ensures r.Success? ==> forall i ::
      (0 <= i < |rows| && i != Find(rows, addressId).value && OwnedBefore(rows, userId, i) >= cap)
      ==> r.value[i] == rows[i]
  {
    var cleared := ClearDefaults(rows, userId, cap);
    KeysSurviveClearing(rows, userId, cap, addressId);
    match Find(cleared, addressId)
    case None => Failure(NotOwned)
    case Some(k) =>
      if cleared[k].userId != userId then Failure(NotOwned)
      else Success(cleared[k := cleared[k].(isDefault := true)])
  }

  /** Counting the user's addresses one row further adds one exactly when that row is theirs. */
  lemma OwnedBeforeStep(rows: seq<Address>, userId: Id, i: nat)
    requires i < |rows|
    ensures OwnedBefore(rows, userId, i + 1) == OwnedBefore(rows, userId, i) + (if rows[i].userId == userId then 1 else 0)
  {
    assert rows[..i + 1] == rows[..i] + [rows[i]];
    FilterAppend(rows[..i], [rows[i]], OwnedBy(userId));
  }

  /** Clearing flags changes no key, so the lookup by key finds the same row. */
  lemma KeysSurviveClearing(rows: seq<Address>, userId: Id, cap: nat, addressId: Id)
    ensures Find(ClearDefaults(rows, userId, cap), addressId) == Find(rows, addressId)
  {
    IndexWhereAgrees(ClearDefaults(rows, userId, cap), HasId(addressId), rows, HasId(addressId));
  }

  /** The positions before `i` that the user owns are fewer than the user's addresses when row `i` is one. */
  lemma {:induction false} OwnedBeforeBound(rows: seq<Address>, userId: Id, i: nat)
    requires i < |rows| && rows[i].userId == userId
    ensures OwnedBefore(rows, userId, i) < |Filter(rows, OwnedBy(userId))|
  {
    assert rows == rows[..i] + rows[i..];
    FilterAppend(rows[..i], rows[i..], OwnedBy(userId));
    assert rows[i..] == [rows[i]] + rows[i + 1..];
    FilterAppend([rows[i]], rows[i + 1..], OwnedBy(userId));
  }

  /** With no more than `cap` addresses, every address of the user is cleared. */
  lemma ClearsAllWhenWithinCap(rows: seq<Address>, userId: Id, cap: nat, i: nat)
    requires |Filter(rows, OwnedBy(userId))| <= cap
    requires i < |rows| && rows[i].userId == userId
    ensures !ClearDefaults(rows, userId, cap)[i].isDefault
  {
    OwnedBeforeBound(rows, userId, i);
  }

  /**
   * When the user owns at most `cap` addresses, a successful call leaves
   * the target as the user's one and only default address.
   */
  lemma SetDefaultLeavesOneDefault(rows: seq<Address>, addressId: Id, userId: Id, cap: nat)
    requires |Filter(rows, OwnedBy(userId))| <= cap
    requires SetDefault(rows, addressId, userId, cap).Success?
    ensures OnlyDefaultAt(SetDefault(rows, addressId, userId, cap).value, userId, Find(rows, addressId).value)
  {
    var r := SetDefault(rows, addressId, userId, cap).value;
    var k := Find(rows, addressId).value;
    forall j | IsDefaultOf(r, userId, j) ensures j == k {
      if j != k {
        ClearsAllWhenWithinCap(rows, userId, cap, j);
      }
    }
  }

  /**
   * When the user owns at most `cap` addresses, a successful call keeps
   * every user's default unique.
   */
  lemma SetDefaultKeepsDefaultsUnique(rows: seq<Address>, addressId: Id, userId: Id, cap: nat)
    requires DefaultsUnique(rows)
    requires |Filter(rows, OwnedBy(userId))| <= cap
    requires SetDefault(rows, addressId, userId, cap).Success?
    ensures DefaultsUnique(SetDefault(rows, addressId, userId, cap).value)
  {
    var r := SetDefault(rows, addressId, userId, cap).value;
    SetDefaultLeavesOneDefault(rows, addressId, userId, cap);
    forall u | u != userId ensures AtMostOneDefault(r, u) {
      assert forall i :: IsDefaultOf(r, u, i) ==> IsDefaultOf(rows, u, i);
      assert AtMostOneDefault(rows, u);
    }
  }

  /** Setting the same default twice gives the same table as setting it once. */
  lemma SetDefaultIdempotent(rows: seq<Address>, addressId: Id, userId: Id, cap: nat)
    requires SetDefault(rows, addressId, userId, cap).Success?
    ensures SetDefault(SetDefault(rows, addressId, userId, cap).value, addressId, userId, cap)
         == SetDefault(rows, addressId, userId, cap)
  {
    var r := SetDefault(rows, addressId, userId, cap).value;
    var k := Find(rows, addressId).value;
    var pu := OwnedBy(userId);
    // Ownership and keys are the same row by row, so the clearing step picks the same rows.
    forall i | 0 <= i <= |rows| ensures OwnedBefore(r, userId, i) == OwnedBefore(rows, userId, i) {
      SameOwnersSameCount(r[..i], rows[..i], userId);
    }
    assert Find(r, addressId) == Some(k);
    ReclearingAgrees(rows, r, userId, cap, k);
  }

  /** Clearing the result of a reassignment again and flagging the same row gives the result back. */
  lemma ReclearingAgrees(rows: seq<Address>, r: seq<Address>, userId: Id, cap: nat, k: nat)
    requires k < |rows| && rows[k].userId == userId
    requires r == ClearDefaults(rows, userId, cap)[k := ClearDefaults(rows, userId, cap)[k].(isDefault := true)]
    requires forall i :: 0 <= i <= |rows| ==> OwnedBefore(r, userId, i) == OwnedBefore(rows, userId, i)
    ensures ClearDefaults(r, userId, cap)[k := ClearDefaults(r, userId, cap)[k].(isDefault := true)] == r
  {
    var c2 := ClearDefaults(r, userId, cap);
    forall i | 0 <= i < |rows| && i != k ensures c2[i] == r[i] {
      assert OwnedBefore(r, userId, i) == OwnedBefore(rows, userId, i);
    }
  }

  lemma {:induction false} SameOwnersSameCount(a: seq<Address>, b: seq<Address>, userId: Id)
    requires |a| == |b|
    requires forall i :: 0 <= i < |a| ==> a[i].userId == b[i].userId
    ensures |Filter(a, OwnedBy(userId))| == |Filter(b, OwnedBy(userId))|
  {
    if a != [] {
      SameOwnersSameCount(a[1..], b[1..], userId);
    }
  }

  /** The clearing step in place: the user's first `cap` addresses, in table order, lose the default flag. */
  method ClearDefaultsInPlace(db: Session, userId: Id, cap: nat)
    requires db.Valid()
    modifies db`addresses
    ensures db.Valid()
    ensures db.addresses == ClearDefaults(old(db.addresses), userId, cap)
  {
    ghost var before := db.addresses;
    var seen := 0;
    var i := 0;
    while i < |db.addresses|
      invariant 0 <= i <= |db.addresses| == |before|
      invariant seen == OwnedBefore(before, userId, i)
      invariant forall j :: 0 <= j < i ==> db.addresses[j] == ClearedAt(before, userId, cap, j)
      invariant forall j :: i <= j < |before| ==> db.addresses[j] == before[j]
    {
      var a := db.addresses[i];
      if a.userId == userId {
        if seen < cap {
          db.addresses := db.addresses[i := a.(isDefault := false)];
        }
        seen := seen + 1;
      }
      OwnedBeforeStep(before, userId, i);
      i := i + 1;
    }
    assert db.addresses == ClearDefaults(before, userId, cap);
    KeysBelowSameAddressKeys(db.orders, db.orderItems, before, db.addresses, db.nextId);
  }

  /**
   * Clears the default flag on the user's first `cap` addresses in place,
   * then checks that `addressId` exists and belongs to `userId` and flags
   * it. Nothing is committed on failure, so the table is left as it was.
   */
  method SetDefaultWithCap(db: Session, addressId: Id, userId: Id, cap: nat) returns (r: Result<Address>)
    requires db.Valid()
    modifies db`addresses
    ensures db.Valid()
    ensures SetDefault(old(db.addresses), addressId, userId, cap).Failure? ==>
      r == Failure(NotOwned) && db.addresses == old(db.addresses)
    ensures SetDefault(old(db.addresses), addressId, userId, cap).Success? ==>
      && db.addresses == SetDefault(old(db.addresses), addressId, userId, cap).value
      && r == Success(db.addresses[Find(old(db.addresses), addressId).value])
  {
    var before := db.addresses;
    ClearDefaultsInPlace(db, userId, cap);
    KeysSurviveClearing(before, userId, cap, addressId);
    var k := Find(db.addresses, addressId);
    if k.None? || db.addresses[k.value].userId != userId {
      db.addresses := before;
      return Failure(NotOwned);
    }
    var target := db.addresses[k.value].(isDefault := true);
    KeysBelowSameAddressKeys(db.orders, db.orderItems, db.addresses, db.addresses[k.value := target], db.nextId);
    db.addresses := db.addresses[k.value := target];
    r := Success(target);
  }

  /**
   * The source's default-address reassignment: the clearing step visits only
   * the user's first DefaultLimit addresses, as GetMultiByUser returns them.
   */
  method SetAsDefault(db: Session, addressId: Id, userId: Id) returns (r: Result<Address>)
    requires db.Valid()
    modifies db`addresses
    ensures db.Valid()
    ensures SetDefault(old(db.addresses), addressId, userId, DefaultLimit).Failure? ==>
      r == Failure(NotOwned) && db.addresses == old(db.addresses)
    ensures SetDefault(old(db.addresses), addressId, userId, DefaultLimit).Success? ==>
      && db.addresses == SetDefault(old(db.addresses), addressId, userId, DefaultLimit).value
      && r == Success(db.addresses[Find(old(db.addresses), addressId).value])
  {
    r := SetDefaultWithCap(db, addressId, userId, DefaultLimit);
  }

  /**
   * The intended reassignment: the clearing step visits every address of
   * the user, so a successful call always leaves exactly one default.
   */
  method SetAsDefaultAll(db: Session, addressId: Id, userId: Id) returns (r: Result<Address>)
    requires db.Valid()
    modifies db`addresses
    ensures db.Valid()
    ensures SetDefault(old(db.addresses), addressId, userId, |old(db.addresses)|).Failure? ==>
      r == Failure(NotOwned) && db.addresses == old(db.addresses)
    ensures SetDefault(old(db.addresses), addressId, userId, |old(db.addresses)|).Success? ==>
      && db.addresses == SetDefault(old(db.addresses), addressId, userId, |old(db.addresses)|).value
      && r == Success(db.addresses[Find(old(db.addresses), addressId).value])
      && OnlyDefaultAt(db.addresses, userId, Find(old(db.addresses), addressId).value)
  {
    ghost var before := db.addresses;
    r := SetDefaultWithCap(db, addressId, userId, |db.addresses|);
    if SetDefault(before, addressId, userId, |before|).Success? {
      SetDefaultLeavesOneDefault(before, addressId, userId, |before|);
    }
  }

  /** Clearing every address of the user leaves the target as the only default, for any number of addresses. */
  lemma SetDefaultAllLeavesOneDefault(rows: seq<Address>, addressId: Id, userId: Id)
    requires SetDefault(rows, addressId, userId, |rows|).Success?
    ensures OnlyDefaultAt(SetDefault(rows, addressId, userId, |rows|).value, userId, Find(rows, addressId).value)
  {
    SetDefaultLeavesOneDefault(rows, addressId, userId, |rows|);
  }

  /** 101 addresses of user 1, only the last one flagged default. */
  function ManyAddresses(): (rows: seq<Address>)
    ensures |rows| == DefaultLimit + 1
    ensures forall i :: 0 <= i < |rows| ==> rows[i].id == i && rows[i].userId == 1
    ensures forall i :: 0 <= i < |rows| ==> (rows[i].isDefault <==> i == DefaultLimit)
  {
    seq(DefaultLimit + 1, (i: int) requires 0 <= i <= DefaultLimit =>
      Address(i, 1, "street", "city", None, "000000", "Russia", i == DefaultLimit))
  }

  lemma ManyAddressesHaveOneDefault()
    ensures DefaultsUnique(ManyAddresses())
  {
    var rows := ManyAddresses();
    forall u ensures AtMostOneDefault(rows, u) {
      assert forall i :: IsDefaultOf(rows, u, i) ==> i == DefaultLimit;
    }
  }

  /**
   * With the cap the source inherits, a user with 101 addresses whose last
   * one is the default and who makes the first one default ends up with two
   * defaults.
   */
  lemma CappedClearingLeavesTwoDefaults()
    ensures DefaultsUnique(ManyAddresses())
    ensures SetDefault(ManyAddresses(), 0, 1, DefaultLimit).Success?
    ensures !AtMostOneDefault(SetDefault(ManyAddresses(), 0, 1, DefaultLimit).value, 1)
  {
    var rows := ManyAddresses();
    ManyAddressesHaveOneDefault();
    assert rows[0].id == 0;
    var cleared := ClearDefaults(rows, 1, DefaultLimit);
    KeysSurviveClearing(rows, 1, DefaultLimit, 0);
    assert Find(cleared, 0) == Some(0);
    FilterKeepsAll(rows[..DefaultLimit], OwnedBy(1));
    assert OwnedBefore(rows, 1, DefaultLimit) == DefaultLimit;
    assert cleared[DefaultLimit] == rows[DefaultLimit];
    var r := cleared[0 := cleared[0].(isDefault := true)];
    assert SetDefault(rows, 0, 1, DefaultLimit) == Success(r);
    assert IsDefaultOf(r, 1, 0) && IsDefaultOf(r, 1, DefaultLimit);
  }
}
