/** The shipping fee of src/orders/utils/order.util.ts: three surcharges and a cap. */
module ShippingFee {
  import opened Model
  import opened Decimal

  datatype Tier = Tier(buildings: seq<string>, fee: int)

  const WEIGHT_FEES: seq<int> := [5000, 8000, 12000]

  const FLOOR_FEES: seq<int> := [0, 1000, 2000]

  const FEE_CAP := 15000

  /** The buildings of tier 0, 1 and 2 of a dormitory. */
  function TierBuildings(dormitory: Dormitory, tier: nat): seq<string>
    requires tier < 3
  {
    match dormitory
    case DormA =>
      if tier == 0 then ["A4", "A7", "A8", "A9"]
      else if tier == 1 then
        ["A1", "A2", "A3", "A5", "A6", "A10", "A11", "A12", "A13", "A14", "A15", "A16", "A17",
         "A18", "A19", "A20"]
      else ["AH1", "AH2", "AG3", "AG4"]
    case DormB =>
      if tier == 0 then ["BD2", "BD3", "BD4", "BD5", "BD6"]
      else if tier == 1 then
        ["BC1", "BC2", "BC3", "BC4", "BC5", "BC6", "BE1", "BE2", "BE3", "BE4"]
      else ["BA1", "BA2", "BA3", "BA4", "BA5", "BB1", "BB2", "BB3", "BB4", "BB5"]
  }

  function BuildingTiers(dormitory: Dormitory): (tiers: seq<Tier>) {
    [Tier(TierBuildings(dormitory, 0), 0),
     Tier(TierBuildings(dormitory, 1), 2000),
     Tier(TierBuildings(dormitory, 2), 4000)]
  }

  function WeightFee(weight: real): int {
    if weight < 1.0 then 5000 else if weight <= 3.0 then 8000 else 12000
  }

  /** The floor is the first character of the room, 0 without a room; a character that is not a
      digit parses to NaN, which is neither below 4 nor within 4 and 6. */
  function FloorOf(room: Option<string>): (floor: Option<nat>) {
    if !Given(room) then Some(0)
    else if IsDigit(room.value[0]) then Some((room.value[0] - '0') as nat)
    else None
  }

  function FloorFee(room: Option<string>): int {
    match FloorOf(room)
    case Some(floor) => if floor < 4 then 0 else if floor <= 6 then 1000 else 2000
    case None => 2000
  }

  /** The surcharge of a building: the fee of the tier that lists it, nothing if none does. */
  ghost function BuildingFee(building: string, dormitory: Dormitory): int {
    var tiers := BuildingTiers(dormitory);
    if exists i :: 0 <= i < |tiers| && building in tiers[i].buildings then
      var i :| 0 <= i < |tiers| && building in tiers[i].buildings;
      tiers[i].fee
    else 0
  }

  ghost function Uncapped(room: Option<string>, building: string, dormitory: Dormitory, weight: real): int {
    WeightFee(weight) + FloorFee(room) + BuildingFee(building, dormitory)
  }

  ghost function Fee(room: Option<string>, building: string, dormitory: Dormitory, weight: real): int {
    var fee := Uncapped(room, building, dormitory, weight);
    if fee > FEE_CAP then FEE_CAP else fee
  }

  /** The tier a building's name belongs to, read off its second character. */
  function TierOfName(building: string): nat {
    if |building| < 2 then 0
    else if building[0] == 'A' then
      if building[1] > '9' then 2 else if |building| == 2 && (building[1] == '4' || building[1] >= '7') then 0 else 1
    else
      if building[1] == 'D' then 0 else if building[1] == 'C' || building[1] == 'E' then 1 else 2
  }

  lemma TierNamesA(tier: nat, k: nat)
    requires tier < 3 && k < |TierBuildings(DormA, tier)|
    ensures TierOfName(TierBuildings(DormA, tier)[k]) == tier
  {
  }

  lemma TierNamesB(tier: nat, k: nat)
    requires tier < 3 && k < |TierBuildings(DormB, tier)|
    ensures TierOfName(TierBuildings(DormB, tier)[k]) == tier
  {
  }

  lemma TierNames(dormitory: Dormitory, tier: nat, building: string)
    requires tier < 3 && building in TierBuildings(dormitory, tier)
    ensures TierOfName(building) == tier
  {
    var k :| 0 <= k < |TierBuildings(dormitory, tier)| && TierBuildings(dormitory, tier)[k] == building;
    match dormitory
    case DormA => TierNamesA(tier, k);
    case DormB => TierNamesB(tier, k);
  }

  /** No building is listed in two tiers of a dormitory. */
  lemma TiersDisjoint(dormitory: Dormitory, building: string, i: nat, j: nat)
    requires i < j < 3
    requires building in BuildingTiers(dormitory)[i].buildings
    ensures building !in BuildingTiers(dormitory)[j].buildings
  {
    TierNames(dormitory, i, building);
    if building in TierBuildings(dormitory, j) {
      TierNames(dormitory, j, building);
    }
  }

  /** The fee a building adds is that of the one tier listing it. */
  lemma BuildingFeeOfTier(building: string, dormitory: Dormitory, i: nat)
    requires i < |BuildingTiers(dormitory)|
    requires building in BuildingTiers(dormitory)[i].buildings
    ensures BuildingFee(building, dormitory) == BuildingTiers(dormitory)[i].fee
  {
    var tiers := BuildingTiers(dormitory);
    forall j | 0 <= j < |tiers| && j != i ensures building !in tiers[j].buildings {
      if j < i && building in tiers[j].buildings {
        TiersDisjoint(dormitory, building, j, i);
      } else if i < j {
        TiersDisjoint(dormitory, building, i, j);
      }
    }
  }

  /** The name of a building is a prefix and a number of a range. */
  predicate IsNumbered(building: string, prefix: string, from: nat, to: nat) {
    exists n: nat :: from <= n <= to && building == prefix + ToText(n)
  }

  function NumberAtA(k: nat): nat {
    if k == 0 then 4 else if k <= 3 then k + 6 else if k <= 6 then k - 3 else if k <= 8 then k - 2 else k + 1
  }

  lemma ShortTexts(n: nat)
    requires n < 100
    ensures ToText(n) == if n < 10 then [Digit(n)] else [Digit(n / 10), Digit(n % 10)]
  {
    if n >= 10 {
      assert ToText(n / 10) == [Digit(n / 10)];
    }
  }

  lemma NamesA(k: nat)
    requires k < 20
    ensures (TierBuildings(DormA, 0) + TierBuildings(DormA, 1))[k] == "A" + ToText(NumberAtA(k))
  {
    ShortTexts(NumberAtA(k));
  }

  lemma NamesB(tier: nat, k: nat)
    requires tier < 3 && k < |TierBuildings(DormB, tier)|
    ensures TierBuildings(DormB, tier)[k] ==
            if tier == 0 then "BD" + ToText(k + 2)
            else if tier == 1 then (if k < 6 then "BC" + ToText(k + 1) else "BE" + ToText(k - 5))
            else (if k < 5 then "BA" + ToText(k + 1) else "BB" + ToText(k - 4))
  {
  }

  lemma NumberedA(n: nat)
    requires 1 <= n <= 20
    ensures "A" + ToText(n) in TierBuildings(DormA, 0) + TierBuildings(DormA, 1)
  {
    var names := TierBuildings(DormA, 0) + TierBuildings(DormA, 1);
    var k := if n == 4 then 0 else if 7 <= n <= 9 then n - 6 else if n <= 3 then n + 3
             else if n <= 6 then n + 2 else n - 1;
    NamesA(k);
    assert names[k] in names;
  }

  lemma ListedA(building: string)
    ensures building in TierBuildings(DormA, 0) + TierBuildings(DormA, 1) <==> IsNumbered(building, "A", 1, 20)
  {
    var names := TierBuildings(DormA, 0) + TierBuildings(DormA, 1);
    if building in names {
      var k :| 0 <= k < |names| && names[k] == building;
      NamesA(k);
    }
    if n: nat :| 1 <= n <= 20 && building == "A" + ToText(n) {
      NumberedA(n);
    }
  }

  lemma NumberedB(n: nat)
    ensures 1 <= n <= 6 ==> "BC" + ToText(n) in TierBuildings(DormB, 1)
    ensures 1 <= n <= 4 ==> "BE" + ToText(n) in TierBuildings(DormB, 1)
    ensures 1 <= n <= 5 ==> "BA" + ToText(n) in TierBuildings(DormB, 2)
    ensures 1 <= n <= 5 ==> "BB" + ToText(n) in TierBuildings(DormB, 2)
  {
    if 1 <= n <= 6 {
      NamesB(1, n - 1);
      assert TierBuildings(DormB, 1)[n - 1] in TierBuildings(DormB, 1);
    }
    if 1 <= n <= 4 {
      NamesB(1, n + 5);
      assert TierBuildings(DormB, 1)[n + 5] in TierBuildings(DormB, 1);
    }
    if 1 <= n <= 5 {
      NamesB(2, n - 1);
      NamesB(2, n + 4);
      assert TierBuildings(DormB, 2)[n - 1] in TierBuildings(DormB, 2);
      assert TierBuildings(DormB, 2)[n + 4] in TierBuildings(DormB, 2);
    }
  }

  lemma ListedB(building: string, tier: nat)
    requires 1 <= tier < 3
    ensures building in TierBuildings(DormB, tier) <==>
            if tier == 1 then IsNumbered(building, "BC", 1, 6) || IsNumbered(building, "BE", 1, 4)
            else IsNumbered(building, "BA", 1, 5) || IsNumbered(building, "BB", 1, 5)
  {
    var names := TierBuildings(DormB, tier);
    if building in names {
      var k :| 0 <= k < |names| && names[k] == building;
      NamesB(tier, k);
    }
    forall n: nat
      ensures 1 <= n <= 6 ==> "BC" + ToText(n) in TierBuildings(DormB, 1)
      ensures 1 <= n <= 4 ==> "BE" + ToText(n) in TierBuildings(DormB, 1)
      ensures 1 <= n <= 5 ==> "BA" + ToText(n) in TierBuildings(DormB, 2)
      ensures 1 <= n <= 5 ==> "BB" + ToText(n) in TierBuildings(DormB, 2)
    {
      NumberedB(n);
    }
  }

  lemma SurchargeOfTier(building: string, dormitory: Dormitory)
    ensures BuildingFee(building, dormitory) ==
            if building in TierBuildings(dormitory, 1) then 2000
            else if building in TierBuildings(dormitory, 2) then 4000 else 0
  {
    var tiers := BuildingTiers(dormitory);
    if i :| 0 <= i < |tiers| && building in tiers[i].buildings {
      BuildingFeeOfTier(building, dormitory, i);
      assert forall j :: 0 <= j < 3 && j != i ==> building !in tiers[j].buildings by {
        forall j | 0 <= j < 3 && j != i ensures building !in tiers[j].buildings {
          if building in tiers[j].buildings {
            TiersDisjoint(dormitory, building, if i < j then i else j, if i < j then j else i);
          }
        }
      }
      assert tiers[1].buildings == TierBuildings(dormitory, 1) && tiers[2].buildings == TierBuildings(dormitory, 2);
    } else {
      assert building !in tiers[1].buildings && building !in tiers[2].buildings;
    }
  }

  /** The surcharges of dormitory A: A1 to A20 but A4, A7, A8 and A9 cost 2000, the four buildings named
      AH and AG 4000, and any other name nothing. */
  lemma SurchargesA(building: string)
    ensures var fee := BuildingFee(building, DormA);
            && fee in {0, 2000, 4000}
            && (fee == 2000 <==> IsNumbered(building, "A", 1, 20) && building !in {"A4", "A7", "A8", "A9"})
            && (fee == 4000 <==> building in {"AH1", "AH2", "AG3", "AG4"})
  {
    SurchargeOfTier(building, DormA);
    ListedA(building);
    if building in TierBuildings(DormA, 1) {
      assert building in BuildingTiers(DormA)[1].buildings;
      if building in BuildingTiers(DormA)[0].buildings {
        TiersDisjoint(DormA, building, 0, 1);
      }
      TiersDisjoint(DormA, building, 1, 2);
    }
  }

  /** The surcharges of dormitory B: BC1 to BC6 and BE1 to BE4 cost 2000, BA1 to BA5 and BB1 to BB5
      4000, and any other name nothing. */
  lemma SurchargesB(building: string)
    ensures var fee := BuildingFee(building, DormB);
            && fee in {0, 2000, 4000}
            && (fee == 2000 <==> IsNumbered(building, "BC", 1, 6) || IsNumbered(building, "BE", 1, 4))
            && (fee == 4000 <==> IsNumbered(building, "BA", 1, 5) || IsNumbered(building, "BB", 1, 5))
  {
    SurchargeOfTier(building, DormB);
    ListedB(building, 1);
    ListedB(building, 2);
    if building in TierBuildings(DormB, 1) {
      assert building in BuildingTiers(DormB)[1].buildings;
      TiersDisjoint(DormB, building, 1, 2);
    }
  }

  /** The fee of a parcel: a price by weight, a surcharge by the first character of the room, the
      surcharge of the building, and never more than 15000. */
  lemma FeeExactly(room: Option<string>, building: string, dormitory: Dormitory, weight: real)
    ensures var byWeight := if weight < 1.0 then 5000 else if weight > 3.0 then 12000 else 8000;
            var low := room == None || room.value == "" || '0' <= room.value[0] <= '3';
            var middle := room.Some? && room.value != "" && '4' <= room.value[0] <= '6';
            var byFloor := if low then 0 else if middle then 1000 else 2000;
            var sum := byWeight + byFloor + BuildingFee(building, dormitory);
            && Fee(room, building, dormitory, weight) <= 15000
            && (sum <= 15000 ==> Fee(room, building, dormitory, weight) == sum)
            && (sum > 15000 ==> Fee(room, building, dormitory, weight) == 15000)
  {
  }

  /** The accumulating computation: every tier is visited, and every tier listing the building
      adds its fee. It comes to one table lookup. */
  method GetShippingFee(room: Option<string>, building: string, dormitory: Dormitory, weight: real)
    returns (fee: int)
    ensures fee == Fee(room, building, dormitory, weight)
  {
    fee := 0;
    if weight < 1.0 {
      fee := fee + WEIGHT_FEES[0];
    } else if weight >= 1.0 && weight <= 3.0 {
      fee := fee + WEIGHT_FEES[1];
    } else {
      fee := fee + WEIGHT_FEES[2];
    }
    var floor := FloorOf(room);
    if floor.Some? && floor.value < 4 {
      fee := fee + FLOOR_FEES[0];
    } else if floor.Some? && floor.value >= 4 && floor.value <= 6 {
      fee := fee + FLOOR_FEES[1];
    } else {
      fee := fee + FLOOR_FEES[2];
    }
    ghost var base := WeightFee(weight) + FloorFee(room);
    var tiers := BuildingTiers(dormitory);
    ghost var seen := false;
    for i := 0 to |tiers|
      invariant seen <==> exists j :: 0 <= j < i && building in tiers[j].buildings
      invariant fee == if seen then base + BuildingFee(building, dormitory) else base
    {
      if building in tiers[i].buildings {
        if seen {
          var j :| 0 <= j < i && building in tiers[j].buildings;
          TiersDisjoint(dormitory, building, j, i);
          assert false;
        }
        BuildingFeeOfTier(building, dormitory, i);
        seen := true;
        fee := fee + tiers[i].fee;
      }
    }
    fee := if fee > FEE_CAP then FEE_CAP else fee;
  }

  /** Every fee is a whole number of thousands between 5000 and 15000. */
  lemma FeeBounds(room: Option<string>, building: string, dormitory: Dormitory, weight: real)
    ensures Fee(room, building, dormitory, weight) in
            {5000, 6000, 7000, 8000, 9000, 10000, 11000, 12000, 13000, 14000, FEE_CAP}
  {
  }

  /** The cap bites exactly for heavy parcels whose floor and building add more than 3000. */
  lemma CapCondition(room: Option<string>, building: string, dormitory: Dormitory, weight: real)
    ensures Uncapped(room, building, dormitory, weight) > FEE_CAP <==>
            weight > 3.0 && FloorFee(room) + BuildingFee(building, dormitory) > 3000
  {
  }

  /** A heavier parcel, and one for a higher leading digit of the room, never costs less. A room
      that does not start with a digit is charged like the highest floors. */
  lemma FeeMonotone(room: Option<string>, room': Option<string>, building: string,
                    dormitory: Dormitory, weight: real, weight': real)
    requires weight <= weight'
    requires FloorOf(room').None? || (FloorOf(room).Some? && FloorOf(room).value <= FloorOf(room').value)
    ensures Fee(room, building, dormitory, weight) <= Fee(room', building, dormitory, weight')
  {
  }
}
