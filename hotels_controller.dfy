/** The hotel controller: validation of request bodies, id allocation, and
    list/create/update/delete on the in-memory hotel table. */
module HotelsController {
  import opened JsText
  import opened Outcomes
  import opened Models
  import opened Digits
  import opened HotelIds
  import opened Stores

  /** A JSON request body for create or update; an absent field is `Undefined`. */
  datatype HotelPayload = HotelPayload(name: JsValue, city: JsValue, stars: JsValue)

  const InvalidPayload: string := "Invalid payload. Required: name (string), city (string), stars (integer 1..5)"
  const InvalidName: string := "Invalid name"
  const InvalidCity: string := "Invalid city"
  const InvalidStars: string := "Invalid stars (must be integer 1..5)"
  const HotelNotFound: string := "Hotel not found"

  /** The star rating a validated number stands for. */
  function StarsOf(v: JsValue): (stars: int)
    requires IsValidStars(v)
    ensures 1 <= stars <= 5 && stars as real == v.n
  {
    v.n.Floor
  }

  /** The check `createHotel` makes before writing anything. */
  predicate ValidCreate(body: HotelPayload) {
    IsNonEmptyString(body.name) && IsNonEmptyString(body.city) && IsValidStars(body.stars)
  }

  /** The record `createHotel` appends: the allocated id, name and city
      trimmed, the given stars, stamped with today's date. */
  function NewHotel(id: string, body: HotelPayload, today: string): (h: Hotel)
    requires ValidCreate(body)
    ensures h.id == id && h.createdAt == today
    ensures h.name == Trim(body.name.s) && h.city == Trim(body.city.s)
    ensures h.stars as real == body.stars.n
    ensures WellFormed(h)
  {
    TrimmedStaysNonEmpty(body.name);
    TrimmedStaysNonEmpty(body.city);
    Hotel(id, Trim(body.name.s), Trim(body.city.s), StarsOf(body.stars), today)
  }

  /** The message of the first present field that fails validation, checking
      name, then city, then stars; None when every present field is valid. */
  function UpdateError(body: HotelPayload): (err: Option<string>)
    ensures err == None <==>
      (body.name != Undefined ==> IsNonEmptyString(body.name)) &&
      (body.city != Undefined ==> IsNonEmptyString(body.city)) &&
      (body.stars != Undefined ==> IsValidStars(body.stars))
    ensures err == Some(InvalidName) <==>
      body.name != Undefined && !IsNonEmptyString(body.name)
    ensures err == Some(InvalidCity) <==>
      (body.name != Undefined ==> IsNonEmptyString(body.name)) &&
      body.city != Undefined && !IsNonEmptyString(body.city)
    ensures err == Some(InvalidStars) <==>
      (body.name != Undefined ==> IsNonEmptyString(body.name)) &&
      (body.city != Undefined ==> IsNonEmptyString(body.city)) &&
      body.stars != Undefined && !IsValidStars(body.stars)
  {
    if body.name != Undefined && !IsNonEmptyString(body.name) then Some(InvalidName)
    else if body.city != Undefined && !IsNonEmptyString(body.city) then Some(InvalidCity)
    else if body.stars != Undefined && !IsValidStars(body.stars) then Some(InvalidStars)
    else None
  }

  /** The record `updateHotel` writes back: id and creation date kept, each
      supplied field replaced (name and city trimmed), each absent one kept. */
  function ApplyUpdate(existing: Hotel, body: HotelPayload): (h: Hotel)
    requires UpdateError(body) == None
    ensures h.id == existing.id && h.createdAt == existing.createdAt
    ensures h.name == if body.name == Undefined then existing.name else Trim(body.name.s)
    ensures h.city == if body.city == Undefined then existing.city else Trim(body.city.s)
    ensures body.stars == Undefined ==> h.stars == existing.stars
    ensures body.stars != Undefined ==> h.stars as real == body.stars.n
    ensures WellFormed(existing) ==> WellFormed(h)
  {
    TrimmedStaysNonEmpty(body.name);
    TrimmedStaysNonEmpty(body.city);
    Hotel(
      existing.id,
      if body.name != Undefined then Trim(body.name.s) else existing.name,
      if body.city != Undefined then Trim(body.city.s) else existing.city,
      if body.stars != Undefined then StarsOf(body.stars) else existing.stars,
      existing.createdAt)
  }

  /** An update that supplies only the stars changes nothing but the stars. */
  lemma StarsOnlyUpdate(existing: Hotel, stars: JsValue)
    requires IsValidStars(stars)
    ensures UpdateError(HotelPayload(Undefined, Undefined, stars)) == None
    ensures var h := ApplyUpdate(existing, HotelPayload(Undefined, Undefined, stars));
      h == existing.(stars := StarsOf(stars))
  {
  }

  /** `Array.prototype.findIndex` on the ids: the first position holding
      `id`, or -1 when no record has it. */
  function FindIndex(hs: seq<Hotel>, id: string): (k: int)
    ensures -1 <= k < |hs|
    ensures k == -1 <==> forall i :: 0 <= i < |hs| ==> hs[i].id != id
    ensures 0 <= k ==> hs[k].id == id && forall i :: 0 <= i < k ==> hs[i].id != id
  {
    if hs == [] then -1
    else if hs[0].id == id then 0
    else
      var k := FindIndex(hs[1..], id);
      if k == -1 then -1 else k + 1
  }

  /** `splice(k, 1)`: the table without its k-th record, the others in order. */
  function RemoveAt(hs: seq<Hotel>, k: nat): (r: seq<Hotel>)
    requires k < |hs|
    ensures |r| == |hs| - 1
    ensures forall i :: 0 <= i < k ==> r[i] == hs[i]
    ensures forall i :: k <= i < |r| ==> r[i] == hs[i + 1]
  {
    hs[..k] + hs[k + 1..]
  }

  /** Appending a record under the allocated id keeps ids unique. */
  lemma AppendFreshKeepsUnique(hs: seq<Hotel>, h: Hotel)
    requires UniqueIds(hs) && h.id == FreshId(hs)
    ensures UniqueIds(hs + [h])
  {
    FreshIdIsFresh(hs);
    var r := hs + [h];
    forall i, j | 0 <= i < j < |r| ensures r[i].id != r[j].id {
      if j == |hs| {
        assert r[i] == hs[i];
      } else {
        assert r[i] == hs[i] && r[j] == hs[j];
      }
    }
  }

  /** Writing a record with the same id into one slot keeps ids unique. */
  lemma ReplaceKeepsUnique(hs: seq<Hotel>, k: nat, h: Hotel)
    requires k < |hs| && UniqueIds(hs) && h.id == hs[k].id
    ensures UniqueIds(hs[k := h])
  {
    var r := hs[k := h];
    assert forall i :: 0 <= i < |r| ==> r[i].id == hs[i].id;
  }

  /** Removing the record at the first match of `id` keeps ids unique, and
      when ids were unique no record with `id` is left: a second delete of the
      same id finds nothing. */
  lemma {:induction false} RemoveKeepsUnique(hs: seq<Hotel>, id: string)
    requires UniqueIds(hs) && FindIndex(hs, id) >= 0
    ensures UniqueIds(RemoveAt(hs, FindIndex(hs, id)))
    ensures FindIndex(RemoveAt(hs, FindIndex(hs, id)), id) == -1
  {
    var k := FindIndex(hs, id);
    var r := RemoveAt(hs, k);
    forall i, j | 0 <= i < j < |r| ensures r[i].id != r[j].id {
      var i' := if i < k then i else i + 1;
      var j' := if j < k then j else j + 1;
      assert r[i] == hs[i'] && r[j] == hs[j'] && i' < j';
    }
    forall i | 0 <= i < |r| ensures r[i].id != id {
      var i' := if i < k then i else i + 1;
      assert r[i] == hs[i'] && i' != k;
    }
  }

  /** Appending a well-formed record keeps every record well-formed. */
  lemma AppendKeepsWellFormed(hs: seq<Hotel>, h: Hotel)
    requires AllWellFormed(hs) && WellFormed(h)
    ensures AllWellFormed(hs + [h])
  {
    var r := hs + [h];
    forall i | 0 <= i < |r| ensures WellFormed(r[i]) {
      if i < |hs| { assert r[i] == hs[i]; }
    }
  }

  /** Removing a record keeps every remaining record well-formed. */
  lemma RemoveKeepsWellFormed(hs: seq<Hotel>, k: nat)
    requires k < |hs| && AllWellFormed(hs)
    ensures AllWellFormed(RemoveAt(hs, k))
  {
    var r := RemoveAt(hs, k);
    forall i | 0 <= i < |r| ensures WellFormed(r[i]) {
      if i < k { assert r[i] == hs[i]; } else { assert r[i] == hs[i + 1]; }
    }
  }

  /** Appending a record under the allocated id keeps every id of the form
      `h<positive integer>`. */
  lemma AppendFreshKeepsPositive(hs: seq<Hotel>, h: Hotel)
    requires PositiveIds(hs) && h.id == FreshId(hs)
    ensures PositiveIds(hs + [h])
  {
    FreshIdSuffix(hs);
    var r := hs + [h];
    forall i | 0 <= i < |r| ensures IdSuffix(r[i].id).Some? && IdSuffix(r[i].id).value >= 1 {
      if i < |hs| { assert r[i] == hs[i]; }
    }
  }

  /** Writing a record with the same id into one slot keeps the id form. */
  lemma ReplaceKeepsPositive(hs: seq<Hotel>, k: nat, h: Hotel)
    requires k < |hs| && PositiveIds(hs) && h.id == hs[k].id
    ensures PositiveIds(hs[k := h])
  {
    var r := hs[k := h];
    assert forall i :: 0 <= i < |r| ==> r[i].id == hs[i].id;
  }

  /** Removing a record keeps the id form of the others. */
  lemma RemoveKeepsPositive(hs: seq<Hotel>, k: nat)
    requires k < |hs| && PositiveIds(hs)
    ensures PositiveIds(RemoveAt(hs, k))
  {
    var r := RemoveAt(hs, k);
    forall i | 0 <= i < |r| ensures IdSuffix(r[i].id).Some? && IdSuffix(r[i].id).value >= 1 {
      if i < k { assert r[i] == hs[i]; } else { assert r[i] == hs[i + 1]; }
    }
  }

  /** The seed ids are `h1`, `h2` and `h3`. */
  lemma SeedIdsPositive(hs: seq<Hotel>)
    requires hs == SeedHotels()
    ensures PositiveIds(hs)
  {
    PrintedIdSuffix(1);
    PrintedIdSuffix(2);
    PrintedIdSuffix(3);
    assert "h" + Decimal(1) == "h1" && "h" + Decimal(2) == "h2" && "h" + Decimal(3) == "h3";
  }

  /** The table the server starts with satisfies the invariant of `HotelStore`. */
  lemma SeedStoreValid(hs: seq<Hotel>)
    requires hs == SeedHotels()
    ensures UniqueIds(hs) && AllWellFormed(hs) && PositiveIds(hs)
  {
    SeedHotelsUnique(hs);
    SeedHotelsWellFormed(hs);
    SeedIdsPositive(hs);
  }

  /** The module-level `hotels` array and the handlers that read and mutate it. */
  class HotelStore {
    var hotels: seq<Hotel>

    /** Ids unique and of the form `h<positive integer>`, every record
        well-formed: true of the seed table and kept by every handler. */
    ghost predicate Valid()
      reads this
    {
      UniqueIds(hotels) && AllWellFormed(hotels) && PositiveIds(hotels)
    }

    constructor (initial: seq<Hotel>)
      ensures hotels == initial
    {
      hotels := initial;
    }

    /** `getAllHotels`: the whole table, in order. */
    method GetAll() returns (r: Response<seq<Hotel>>)
      ensures r == Ok(hotels)
    {
      r := Ok(hotels);
    }

    /** `getNextHotelId`: scans the table keeping the largest `h<digits>`
        suffix and answers `h` followed by one more; the answer is the id of
        no record. */
    method NextHotelId() returns (id: string)
      ensures id == FreshId(hotels)
      ensures forall i :: 0 <= i < |hotels| ==> hotels[i].id != id
    {
      var max := 0;
      for i := 0 to |hotels|
        invariant max == MaxSuffix(hotels[..i])
      {
        assert hotels[..i + 1][..i] == hotels[..i];
        match IdSuffix(hotels[i].id) {
          case Some(v) =>
            max := if v > max then v else max;
          case None =>
        }
      }
      assert hotels[..|hotels|] == hotels;
      FreshIdIsFresh(hotels);
      id := "h" + Decimal(max + 1);
    }

    /** `createHotel`: on an invalid body answers 400 and changes nothing;
        otherwise appends the new record under a fresh id and returns it. */
    method Create(body: HotelPayload, today: string) returns (r: Response<Hotel>)
      modifies this
      ensures !ValidCreate(body) ==> r == BadRequest(InvalidPayload) && hotels == old(hotels)
      ensures ValidCreate(body) ==>
        r == Ok(NewHotel(FreshId(old(hotels)), body, today)) &&
        hotels == old(hotels) + [r.value]
      ensures r.Ok? ==> forall i :: 0 <= i < |old(hotels)| ==> old(hotels)[i].id != r.value.id
      ensures old(Valid()) ==> Valid()
    {
      if !ValidCreate(body) {
        return BadRequest(InvalidPayload);
      }
      var id := NextHotelId();
      var h := NewHotel(id, body, today);
      if Valid() {
        AppendFreshKeepsUnique(hotels, h);
        AppendKeepsWellFormed(hotels, h);
        AppendFreshKeepsPositive(hotels, h);
      }
      hotels := hotels + [h];
      r := Ok(h);
    }

    /** `updateHotel`: 404 when no record has `id`; 400 with the message of
        the first invalid supplied field; otherwise rewrites only the slot of
        the first record with `id` and returns the new record. */
    method Update(id: string, body: HotelPayload) returns (r: Response<Hotel>)
      modifies this
      ensures var k := FindIndex(old(hotels), id);
        if k == -1 then
          r == NotFound(HotelNotFound) && hotels == old(hotels)
        else if UpdateError(body).Some? then
          r == BadRequest(UpdateError(body).value) && hotels == old(hotels)
        else
          r == Ok(ApplyUpdate(old(hotels)[k], body)) && hotels == old(hotels)[k := r.value]
      ensures old(Valid()) ==> Valid()
    {
      var index := FindIndex(hotels, id);
      if index == -1 {
        return NotFound(HotelNotFound);
      }
      var existing := hotels[index];
      match UpdateError(body) {
        case Some(message) =>
          return BadRequest(message);
        case None =>
      }
      var updated := ApplyUpdate(existing, body);
      if Valid() {
        ReplaceKeepsUnique(hotels, index, updated);
        ReplaceKeepsPositive(hotels, index, updated);
      }
      hotels := hotels[index := updated];
      r := Ok(updated);
    }

    /** `deleteHotel`: 404 when no record has `id`; otherwise splices out the
        first record with `id` and returns it. With unique ids, none is left. */
    method Delete(id: string) returns (r: Response<Hotel>)
      modifies this
      ensures var k := FindIndex(old(hotels), id);
        if k == -1 then
          r == NotFound(HotelNotFound) && hotels == old(hotels)
        else
          r == Ok(old(hotels)[k]) && hotels == RemoveAt(old(hotels), k)
      ensures old(Valid()) ==> Valid() && FindIndex(hotels, id) == -1
    {
      var index := FindIndex(hotels, id);
      if index == -1 {
        return NotFound(HotelNotFound);
      }
      var deleted := hotels[index];
      if Valid() {
        RemoveKeepsUnique(hotels, id);
        RemoveKeepsWellFormed(hotels, index);
        RemoveKeepsPositive(hotels, index);
      }
      hotels := RemoveAt(hotels, index);
      r := Ok(deleted);
    }
  }

  /** The ids of the seed table. */
  lemma SeedIds(hs: seq<Hotel>)
    requires hs == SeedHotels()
    ensures |hs| == 3 && hs[0].id == "h1" && hs[1].id == "h2" && hs[2].id == "h3"
  {
  }

  /** A table holding `h1` and `h2` allocates `h3`. */
  lemma NextAfterTwo(hs: seq<Hotel>)
    requires |hs| == 2 && hs[0].id == "h1" && hs[1].id == "h2"
    ensures FreshId(hs) == "h3"
  {
    PrintedIdSuffix(1);
    PrintedIdSuffix(2);
    assert "h" + Decimal(1) == "h1" && "h" + Decimal(2) == "h2";
    assert MaxSuffix(hs[..1]) == 1;
    assert MaxSuffix(hs) == 2;
    assert Decimal(3) == "3";
  }

  /** As written, `getNextHotelId` looks only at the records still in the
      table: after the seed's `h3`, the largest, is deleted, the next create
      is handed `h3` again, the id seed booking b4 still refers to. */
  lemma DeleteMaxThenCreateReusesId(hs: seq<Hotel>)
    requires hs == SeedHotels()
    ensures FindIndex(hs, "h3") == 2
    ensures FreshId(RemoveAt(hs, 2)) == "h3"
  {
    SeedIds(hs);
    NextAfterTwo(RemoveAt(hs, 2));
  }

  /** With a high-water mark of 3, kept across the delete, the same sequence
      hands out `h4`, an id never issued before. */
  lemma DeleteMaxThenCreateWithMark(hs: seq<Hotel>)
    requires hs == SeedHotels()
    ensures FreshIdAbove(RemoveAt(hs, 2), 3) !in {"h1", "h2", "h3"}
  {
    PrintedIdSuffix(1);
    PrintedIdSuffix(2);
    PrintedIdSuffix(3);
    assert "h" + Decimal(1) == "h1" && "h" + Decimal(2) == "h2" && "h" + Decimal(3) == "h3";
    FreshIdAboveNeverReused(RemoveAt(hs, 2), 3, {"h1", "h2", "h3"});
  }
}
