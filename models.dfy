/** The records held by the in-memory stores, and the invariants the hotel
    controller keeps over them. */
module Models {
  import opened JsText

  /** A hotel record. `stars` is kept as an integer: every path that writes it
      has checked that the number is an integer between 1 and 5. */
  datatype Hotel = Hotel(id: string, name: string, city: string, stars: int, createdAt: string)

  /** A client record; only its presence in the store matters here. */
  datatype Client = Client(id: string)

  /** A booking record. Prices are whole amounts. */
  datatype Booking = Booking(id: string, hotelId: string, clientId: string, totalPrice: int, createdAt: string)

  /** The data invariant the hotel controller keeps for every record it
      writes: name and city non-blank, stars an integer in 1..5. */
  predicate WellFormed(h: Hotel) {
    IsNonEmptyString(JsString(h.name)) && IsNonEmptyString(JsString(h.city)) && 1 <= h.stars <= 5
  }

  /** A record whose name and city start with a non-whitespace character and
      whose rating is in 1..5 is well-formed. */
  lemma WellFormedByFirstChars(h: Hotel)
    requires h.name != [] && !IsJsWhitespace(h.name[0])
    requires h.city != [] && !IsJsWhitespace(h.city[0])
    requires 1 <= h.stars <= 5
    ensures WellFormed(h)
  {
    NonBlankByFirst(h.name);
    NonBlankByFirst(h.city);
  }

  predicate AllWellFormed(hs: seq<Hotel>) {
    forall i :: 0 <= i < |hs| ==> WellFormed(hs[i])
  }

  /** No two records of the table share an id. */
  predicate UniqueIds(hs: seq<Hotel>) {
    forall i, j :: 0 <= i < j < |hs| ==> hs[i].id != hs[j].id
  }
}
