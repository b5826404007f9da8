/** Hotel identifiers of the form `h<digits>` and the allocation rule of
    `getNextHotelId`: one more than the largest numeric suffix in use. */
module HotelIds {
  import opened Outcomes
  import opened Models
  import opened Digits

  /** The numeric suffix of `id` when it matches `^h(\d+)$`, and None otherwise. */
  function IdSuffix(id: string): (r: Option<nat>)
    ensures r.Some? <==> |id| >= 2 && id[0] == 'h' && AllDigits(id[1..])
  {
    if |id| >= 2 && id[0] == 'h' && AllDigits(id[1..]) then Some(DigitsValue(id[1..])) else None
  }

  /** The suffix an id contributes to the running maximum: 0 when it does not
      match, which never raises a maximum that starts at 0. */
  function Contribution(id: string): nat {
    match IdSuffix(id)
    case Some(v) => v
    case None => 0
  }

  /** The largest numeric suffix over the ids of `hs`, or 0 when none matches. */
  function MaxSuffix(hs: seq<Hotel>): (m: nat)
    ensures forall i :: 0 <= i < |hs| && IdSuffix(hs[i].id).Some? ==> IdSuffix(hs[i].id).value <= m
    ensures m == 0 || exists i :: 0 <= i < |hs| && IdSuffix(hs[i].id) == Some(m)
  {
    if hs == [] then 0
    else
      var m := MaxSuffix(hs[..|hs| - 1]);
      var c := Contribution(hs[|hs| - 1].id);
      if c > m then c else m
  }

  /** The id `getNextHotelId` allocates for the table `hs`. */
  function FreshId(hs: seq<Hotel>): string {
    "h" + Decimal(MaxSuffix(hs) + 1)
  }

  /** `h` followed by a non-empty run of digits matches `^h(\d+)$`, with that
      run as its suffix. */
  lemma SuffixOfDigits(d: string)
    requires |d| > 0 && AllDigits(d)
    ensures IdSuffix("h" + d) == Some(DigitsValue(d))
  {
    assert ("h" + d)[1..] == d;
  }

  /** `h` followed by the decimal form of n matches `^h(\d+)$` with suffix n. */
  lemma PrintedIdSuffix(n: nat)
    ensures IdSuffix("h" + Decimal(n)) == Some(n)
  {
    var d := Decimal(n);
    SuffixOfDigits(d);
    DecimalRoundTrip(n);
  }

  /** The allocated id matches `^h(\d+)$` with suffix one more than the maximum. */
  lemma FreshIdSuffix(hs: seq<Hotel>)
    ensures IdSuffix(FreshId(hs)) == Some(MaxSuffix(hs) + 1)
  {
    var m := MaxSuffix(hs);
    assert FreshId(hs) == "h" + Decimal(m + 1);
    PrintedIdSuffix(m + 1);
  }

  /** The allocated id matches `^h(\d+)$`, its suffix exceeds every suffix in
      use, and so it differs from every id of the table. */
  lemma FreshIdIsFresh(hs: seq<Hotel>)
    ensures IdSuffix(FreshId(hs)) == Some(MaxSuffix(hs) + 1)
    ensures forall i :: 0 <= i < |hs| && IdSuffix(hs[i].id).Some? ==>
      IdSuffix(hs[i].id).value < IdSuffix(FreshId(hs)).value
    ensures forall i :: 0 <= i < |hs| ==> hs[i].id != FreshId(hs)
  {
    FreshIdSuffix(hs);
    var m := MaxSuffix(hs);
    var id := FreshId(hs);
    forall i | 0 <= i < |hs| ensures hs[i].id != id {
      var s := IdSuffix(hs[i].id);
      assert s != Some(m + 1);
    }
  }

  /** Every id of the table matches `^h(\d+)$` with a positive suffix. */
  predicate PositiveIds(hs: seq<Hotel>) {
    forall i :: 0 <= i < |hs| ==> IdSuffix(hs[i].id).Some? && IdSuffix(hs[i].id).value >= 1
  }

  /** The allocation the design intends, where an id is never handed out
      twice: one more than the larger of the table's maximum suffix and
      `mark`, the largest suffix ever issued, deleted records included. */
  function FreshIdAbove(hs: seq<Hotel>, mark: nat): string {
    var m := MaxSuffix(hs);
    "h" + Decimal((if mark > m then mark else m) + 1)
  }

  /** The intended allocation issues no id it issued before, as long as
      `mark` bounds the suffixes of every id in `issued`; it differs from
      every id in the table; and while no suffix above the table's maximum
      was issued it is exactly what `getNextHotelId` returns. */
  lemma FreshIdAboveNeverReused(hs: seq<Hotel>, mark: nat, issued: set<string>)
    requires forall id :: id in issued && IdSuffix(id).Some? ==> IdSuffix(id).value <= mark
    ensures IdSuffix(FreshIdAbove(hs, mark)).Some?
    ensures FreshIdAbove(hs, mark) !in issued
    ensures forall i :: 0 <= i < |hs| ==> hs[i].id != FreshIdAbove(hs, mark)
    ensures mark <= MaxSuffix(hs) ==> FreshIdAbove(hs, mark) == FreshId(hs)
  {
    var m := MaxSuffix(hs);
    var top := if mark > m then mark else m;
    assert FreshIdAbove(hs, mark) == "h" + Decimal(top + 1);
    PrintedIdSuffix(top + 1);
    forall i | 0 <= i < |hs| ensures hs[i].id != FreshIdAbove(hs, mark) {
      var s := IdSuffix(hs[i].id);
      assert s != Some(top + 1);
    }
  }
}
