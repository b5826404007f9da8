/** The contents of the in-memory stores at process start, and the facts about
    them that the controllers' invariants start from. */
module Stores {
  import opened Models

  /** The hotel store at process start. */
  function SeedHotels(): seq<Hotel> {
    [ Hotel("h1", "Hotel Royal Palace", "Tunis", 5, "2023-01-10"),
      Hotel("h2", "Mediterranean Resort", "Sousse", 4, "2023-03-15"),
      Hotel("h3", "Desert Dream Hotel", "Tozeur", 3, "2024-02-01") ]
  }

  /** The booking store at process start. */
  function SeedBookings(): seq<Booking> {
    [ Booking("b1", "h1", "c1", 1200, "2024-01-15"),
      Booking("b2", "h2", "c2", 900, "2024-02-20"),
      Booking("b3", "h1", "c3", 1500, "2024-03-10"),
      Booking("b4", "h3", "c4", 700, "2024-04-05"),
      Booking("b5", "h1", "c2", 2000, "2025-01-18"),
      Booking("b6", "h2", "c3", 1300, "2025-02-12") ]
  }

  /** The seed table has no duplicate id. */
  lemma SeedHotelsUnique(hs: seq<Hotel>)
    requires hs == SeedHotels()
    ensures UniqueIds(hs)
  {
  }

  /** Every seed record has a non-blank name and city and a valid rating. */
  lemma SeedHotelsWellFormed(hs: seq<Hotel>)
    requires hs == SeedHotels()
    ensures AllWellFormed(hs)
  {
    forall i | 0 <= i < |hs| ensures WellFormed(hs[i]) {
      var h := hs[i];
      assert h.name[0] in "HMD" && h.city[0] in "TS";
      WellFormedByFirstChars(h);
    }
  }
}
