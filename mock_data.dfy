/** The mock vehicle-registration generator (`MockDataGenerator`).

    Every call to `Math.random()` is an explicit draw `u` with 0 <= u < 1,
    computed with exact reals; decimal multipliers are fixed point (tenths for
    the manufacturer and type price multipliers, hundredths for the year
    multipliers). */
module MockData {
  import opened Seqs

  datatype WeightedItem = WeightedItem(name: string, weight: real)

  /** One generated record, with the fields in the order the generator writes them. */
  datatype Vehicle = Vehicle(
    id: string,
    manufacturer: string,
    vehicleType: string,
    model: string,
    year: int,
    region: string,
    price: int,
    batteryCapacity: int,
    range: int)

  /** The uniform draws one record consumes, in the order the generator asks for them. */
  datatype Draws = Draws(
    manufacturer: real,
    vehicleType: real,
    year: real,
    model: real,
    region: real,
    battery: real,
    range: real)

  predicate IsUnit(u: real)
  {
    0.0 <= u < 1.0
  }

  predicate ValidDraws(d: Draws)
  {
    IsUnit(d.manufacturer) && IsUnit(d.vehicleType) && IsUnit(d.year) && IsUnit(d.model)
    && IsUnit(d.region) && IsUnit(d.battery) && IsUnit(d.range)
  }

  // ---------------------------------------------------------------------------
  // Catalogs (fixed at construction)

  const Manufacturers: seq<WeightedItem> := [
    WeightedItem("Tesla", 0.3),
    WeightedItem("Nissan", 0.15),
    WeightedItem("BMW", 0.12),
    WeightedItem("Ford", 0.1),
    WeightedItem("Chevrolet", 0.08),
    WeightedItem("Volkswagen", 0.1),
    WeightedItem("Toyota", 0.15)
  ]

  const VehicleTypes: seq<WeightedItem> := [
    WeightedItem("Car", 0.7),
    WeightedItem("SUV", 0.2),
    WeightedItem("Truck", 0.08),
    WeightedItem("Bus", 0.02)
  ]

  const Regions: seq<string> := ["North America", "Europe", "Asia", "South America", "Oceania"]

  const Models: map<string, seq<string>> := map[
    "Tesla" := ["Model S", "Model 3", "Model X", "Model Y", "Cybertruck"],
    "Nissan" := ["Leaf", "Ariya", "e-NV200"],
    "BMW" := ["i3", "i4", "iX", "iX3"],
    "Ford" := ["Mustang Mach-E", "F-150 Lightning", "E-Transit"],
    "Chevrolet" := ["Bolt EV", "Bolt EUV", "Silverado EV"],
    "Volkswagen" := ["ID.3", "ID.4", "ID.5", "e-Golf"],
    "Toyota" := ["bZ4X", "Proace Electric", "RAV4 EV"]
  ]

  const GenericModel: string := "Generic Model"

  const FirstYear: int := 2015
  const BasePrice: int := 35000
  const DefaultCount: int := 1000

  /** Price multipliers in tenths; keys not listed get 1.0. */
  const ManufacturerMultiplierTenths: map<string, int> := map["Tesla" := 14, "BMW" := 13, "Toyota" := 9, "Nissan" := 8]
  const TypeMultiplierTenths: map<string, int> := map["Car" := 10, "SUV" := 12, "Truck" := 14, "Bus" := 25]

  /** Base battery capacity (kWh) and base range (miles) per vehicle type. */
  const BaseCapacityTable: map<string, int> := map["Car" := 60, "SUV" := 75, "Truck" := 100, "Bus" := 150]
  const BaseRangeTable: map<string, int> := map["Car" := 250, "SUV" := 220, "Truck" := 200, "Bus" := 150]

  function Lookup(table: map<string, int>, key: string, default: int): int
  {
    if key in table then table[key] else default
  }

  function Names(items: seq<WeightedItem>): seq<string>
  {
    seq(|items|, i requires 0 <= i < |items| => items[i].name)
  }

  // ---------------------------------------------------------------------------
  // Rounding

  /** `Math.round` on an exact real: the nearest integer, halves rounded up. */
  function Round(x: real): (n: int)
    ensures n as real - 0.5 <= x < n as real + 0.5
  {
    (x + 0.5).Floor
  }

  lemma RoundMonotone(x: real, y: real)
    requires x <= y
    ensures Round(x) <= Round(y)
  {
  }

  /** `Math.round(n / d)` on integers: the q with q - 1/2 <= n/d < q + 1/2. */
  function RoundRatio(n: int, d: int): (q: int)
    requires d > 0
    ensures 2 * d * q - d <= 2 * n < 2 * d * q + d
  {
    (2 * n + d) / (2 * d)
  }

  // ---------------------------------------------------------------------------
  // Weighted choice (inverse CDF over the weight table)

  /** Sum of the weights of the first `k` items. */
  function CumulativeWeight(items: seq<WeightedItem>, k: nat): real
    requires k <= |items|
  {
    if k == 0 then 0.0 else CumulativeWeight(items, k - 1) + items[k - 1].weight
  }

  function TotalWeight(items: seq<WeightedItem>): real
  {
    CumulativeWeight(items, |items|)
  }

  predicate NonNegativeWeights(items: seq<WeightedItem>)
  {
    forall i :: 0 <= i < |items| ==> items[i].weight >= 0.0
  }

  /** The cumulative weight through item `j` reaches `target`. */
  predicate Reaches(items: seq<WeightedItem>, target: real, j: nat)
    requires j < |items|
  {
    CumulativeWeight(items, j + 1) >= target
  }

  /** The first index at or after `i` whose cumulative weight through it reaches
      `target`; 0 when none does. */
  function FirstReaching(items: seq<WeightedItem>, target: real, i: nat): (k: nat)
    requires i <= |items|
    ensures items != [] ==> k < |items|
    decreases |items| - i
  {
    if i == |items| then 0
    else if Reaches(items, target, i) then i
    else FirstReaching(items, target, i + 1)
  }

  /** Index chosen for the scaled draw `target`. */
  function PickIndex(items: seq<WeightedItem>, target: real): (k: nat)
    ensures items != [] ==> k < |items|
  {
    FirstReaching(items, target, 0)
  }

  /** The item `weightedRandom` returns for draw `u`. */
  function Pick(items: seq<WeightedItem>, u: real): (item: WeightedItem)
    requires items != []
    ensures item in items
  {
    items[PickIndex(items, u * TotalWeight(items))]
  }

  /** `weightedRandom`: scale the draw by the total weight, subtract weights in
      order and return the first item that brings the remainder to 0 or below,
      else the first item (`undefined` for an empty list). */
  method WeightedRandom(items: seq<WeightedItem>, u: real) returns (picked: Option<WeightedItem>)
    ensures items == [] ==> picked == None
    ensures items != [] ==> picked == Some(Pick(items, u))
  {
    var target := u * TotalWeight(items);
    var random := target;
    var i := 0;
    while i < |items|
      invariant 0 <= i <= |items|
      invariant random == target - CumulativeWeight(items, i)
      invariant PickIndex(items, target) == FirstReaching(items, target, i)
    {
      random := random - items[i].weight;
      if random <= 0.0 {
        assert Reaches(items, target, i);
        return Some(items[i]);
      }
      i := i + 1;
    }
    if items == [] {
      return None;
    }
    return Some(items[0]);
  }

  /** Item `k` is the first whose cumulative weight reaches `target`. */
  predicate IsFirstReaching(items: seq<WeightedItem>, target: real, k: nat)
    requires k < |items|
  {
    Reaches(items, target, k) && forall j :: 0 <= j < k ==> !Reaches(items, target, j)
  }

  /** Not even the cumulative weight of all items reaches `target`. */
  predicate NoneReaches(items: seq<WeightedItem>, target: real)
  {
    forall j :: 0 <= j < |items| ==> !Reaches(items, target, j)
  }

  lemma {:induction false} FirstReachingIsFirst(items: seq<WeightedItem>, target: real, i: nat)
    requires i <= |items| && items != []
    requires forall j :: 0 <= j < i ==> !Reaches(items, target, j)
    ensures var k := FirstReaching(items, target, i);
      (i <= k && IsFirstReaching(items, target, k)) || (k == 0 && NoneReaches(items, target))
    decreases |items| - i
  {
    if i < |items| && !Reaches(items, target, i) {
      FirstReachingIsFirst(items, target, i + 1);
    }
  }

  /** The pick is the first item whose cumulative weight reaches the target;
      only when none does is it the first item, as a fallback. */
  lemma PickIndexIsFirstReaching(items: seq<WeightedItem>, target: real)
    requires items != []
    ensures var k := PickIndex(items, target);
      IsFirstReaching(items, target, k) || (k == 0 && NoneReaches(items, target))
  {
    FirstReachingIsFirst(items, target, 0);
  }

  lemma {:induction false} CumulativeWeightNonNegative(items: seq<WeightedItem>, k: nat)
    requires k <= |items| && NonNegativeWeights(items)
    ensures CumulativeWeight(items, k) >= 0.0
  {
    if k > 0 {
      CumulativeWeightNonNegative(items, k - 1);
    }
  }

  /** With non-negative weights and a draw in [0,1) the fallback never decides:
      the pick is the first item whose cumulative weight reaches u * total. */
  lemma NonNegativeWeightsNeverFallBack(items: seq<WeightedItem>, u: real)
    requires items != [] && NonNegativeWeights(items) && IsUnit(u)
    ensures IsFirstReaching(items, u * TotalWeight(items), PickIndex(items, u * TotalWeight(items)))
  {
    var total := TotalWeight(items);
    var target := u * total;
    CumulativeWeightNonNegative(items, |items|);
    UnitScaleWeak(u, total);
    assert Reaches(items, target, |items| - 1);
    assert !NoneReaches(items, target);
    PickIndexIsFirstReaching(items, target);
    assert target == u * TotalWeight(items);
  }

  /** A target of zero or less picks the first item by the threshold rule
      itself (not the fallback) when its weight is non-negative; a single item
      of weight 0 is therefore always returned. */
  lemma NonPositiveTargetPicksFirst(items: seq<WeightedItem>, target: real)
    requires items != [] && items[0].weight >= 0.0 && target <= 0.0
    ensures PickIndex(items, target) == 0
    ensures Reaches(items, target, 0)
  {
    assert CumulativeWeight(items, 1) == items[0].weight;
    assert Reaches(items, target, 0);
    assert FirstReaching(items, target, 0) == 0;
  }

  lemma CatalogWeightsSumToOne()
    ensures TotalWeight(Manufacturers) == 1.0
    ensures TotalWeight(VehicleTypes) == 1.0
    ensures NonNegativeWeights(Manufacturers) && NonNegativeWeights(VehicleTypes)
  {
    assert CumulativeWeight(Manufacturers, 1) == 0.3;
    assert CumulativeWeight(Manufacturers, 2) == 0.45;
    assert CumulativeWeight(Manufacturers, 3) == 0.57;
    assert CumulativeWeight(Manufacturers, 4) == 0.67;
    assert CumulativeWeight(Manufacturers, 5) == 0.75;
    assert CumulativeWeight(Manufacturers, 6) == 0.85;
    assert CumulativeWeight(VehicleTypes, 2) == 0.9;
    assert CumulativeWeight(VehicleTypes, 3) == 0.98;
  }

  // ---------------------------------------------------------------------------
  // Derived attributes

  /** A draw scales a positive amount to a point of `[0, amount)`. */
  lemma UnitScale(u: real, r: real)
    requires IsUnit(u) && r > 0.0
    ensures 0.0 <= u * r < r
  {
    PositiveProduct(1.0 - u, r);
    assert r - u * r == (1.0 - u) * r;
    NonNegativeProduct(u, r);
  }

  /** A draw scales a non-negative amount to at most itself. */
  lemma UnitScaleWeak(u: real, r: real)
    requires IsUnit(u) && r >= 0.0
    ensures u * r <= r
  {
    NonNegativeProduct(1.0 - u, r);
    assert r - u * r == (1.0 - u) * r;
  }

  lemma PositiveProduct(a: real, b: real)
    requires a > 0.0 && b > 0.0
    ensures a * b > 0.0
  {
  }

  lemma NonNegativeProduct(a: real, b: real)
    requires a >= 0.0 && b >= 0.0
    ensures a * b >= 0.0
  {
  }

  /** `Math.floor(u * n)`: a uniform index into a list of length `n`. */
  function UniformIndex(u: real, n: nat): (i: nat)
    requires IsUnit(u) && n > 0
    ensures i < n
  {
    UnitScale(u, n as real);
    (u * n as real).Floor
  }

  /** `randomYear`: `Math.floor(2015 + u * (currentYear - 2014))`. */
  function RandomYear(u: real, currentYear: int): (year: int)
    requires IsUnit(u)
    ensures currentYear >= FirstYear ==> FirstYear <= year <= currentYear
  {
    var span := (currentYear - (FirstYear - 1)) as real;
    assert currentYear >= FirstYear ==> 0.0 <= u * span < span by {
      if currentYear >= FirstYear {
        UnitScale(u, span);
      }
    }
    (FirstYear as real + u * span).Floor
  }

  /** A manufacturer's model catalog, or the single generic model when unknown. */
  function ModelsOf(manufacturer: string): (models: seq<string>)
    ensures |models| > 0
  {
    if manufacturer in Models then Models[manufacturer] else [GenericModel]
  }

  /** `generateModel`: a uniform pick from the manufacturer's catalog; the
      vehicle type is accepted and ignored. */
  function GenerateModel(manufacturer: string, vehicleType: string, u: real): (model: string)
    requires IsUnit(u)
    ensures model in ModelsOf(manufacturer)
    ensures manufacturer in Models ==> model in Models[manufacturer]
    ensures manufacturer !in Models ==> model == GenericModel
  {
    var models := ModelsOf(manufacturer);
    models[UniformIndex(u, |models|)]
  }

  lemma GenerateModelIgnoresType(manufacturer: string, t1: string, t2: string, u: real)
    requires IsUnit(u)
    ensures GenerateModel(manufacturer, t1, u) == GenerateModel(manufacturer, t2, u)
  {
  }

  function ManufacturerMultiplier(manufacturer: string): (tenths: int)
    ensures 8 <= tenths <= 14
    ensures manufacturer !in ManufacturerMultiplierTenths ==> tenths == 10
  {
    Lookup(ManufacturerMultiplierTenths, manufacturer, 10)
  }

  function TypeMultiplier(vehicleType: string): (tenths: int)
    ensures 10 <= tenths <= 25
    ensures vehicleType !in TypeMultiplierTenths ==> tenths == 10
  {
    Lookup(TypeMultiplierTenths, vehicleType, 10)
  }

  /** `1 + (year - 2015) * 0.03`, in hundredths. */
  function PriceYearMultiplier(year: int): int
  {
    100 + 3 * (year - FirstYear)
  }

  /** Product of the manufacturer and type multipliers, in hundredths. */
  function MultiplierProduct(manufacturer: string, vehicleType: string): (p: int)
    ensures 80 <= p <= 350
  {
    var m, t := ManufacturerMultiplier(manufacturer), TypeMultiplier(vehicleType);
    assert 8 * t <= m * t <= 14 * t;
    m * t
  }

  /** Price times 10000: base price times the three fixed-point multipliers. */
  function ScaledPrice(manufacturer: string, vehicleType: string, year: int): int
  {
    BasePrice * (MultiplierProduct(manufacturer, vehicleType) * PriceYearMultiplier(year))
  }

  /** `generatePrice`: the multiplied price rounded to the nearest thousand:
      price / 1000 is the integer nearest to ScaledPrice / 10^7, halves up. */
  function GeneratePrice(manufacturer: string, vehicleType: string, year: int): int
  {
    1000 * RoundRatio(ScaledPrice(manufacturer, vehicleType, year), 10000 * 1000)
  }

  lemma GeneratePriceRounds(manufacturer: string, vehicleType: string, year: int)
    ensures var price := GeneratePrice(manufacturer, vehicleType, year);
      var n, k := ScaledPrice(manufacturer, vehicleType, year), price / 1000;
      price % 1000 == 0 && 2 * 10000000 * k - 10000000 <= 2 * n < 2 * 10000000 * k + 10000000
  {
  }

  lemma ProductSign(p: int, y: int)
    requires 80 <= p <= 350
    ensures y >= 1 ==> p * y >= 80
    ensures y >= 100 ==> p * y >= 8000
    ensures y <= -2 ==> p * y <= -160
  {
    if y >= 1 {
      assert (p - 80) * y >= 0;
    } else if y <= -2 {
      assert (p - 80) * y <= 0;
    }
  }

  /** Where the rounded thousands `k` of `BasePrice * py / 10^7` fall
      for the three ranges of the multiplier product `py` that matter. */
  lemma RoundedThousandsSign(py: int, k: int)
    requires 2 * 10000000 * k - 10000000 <= 2 * (BasePrice * py) < 2 * 10000000 * k + 10000000
    ensures py >= 80 ==> k >= 0
    ensures py >= 8000 ==> k > 0
    ensures py <= -160 ==> k < 0
  {
  }

  /** The price is positive from 2015 on, and non-negative exactly from 1982 on
      (the year multiplier `1 + (year - 2015) * 0.03` is negative before). */
  lemma PriceSign(manufacturer: string, vehicleType: string, year: int)
    ensures year >= FirstYear ==> GeneratePrice(manufacturer, vehicleType, year) > 0
    ensures GeneratePrice(manufacturer, vehicleType, year) >= 0 <==> year >= 1982
  {
    var p, y := MultiplierProduct(manufacturer, vehicleType), PriceYearMultiplier(year);
    ProductSign(p, y);
    RoundedThousandsSign(p * y, RoundRatio(ScaledPrice(manufacturer, vehicleType, year), 10000 * 1000));
  }

  lemma MulMonotone(c: int, a: int, b: int)
    requires c >= 0 && a <= b
    ensures c * a <= c * b
  {
    assert c * b - c * a == c * (b - a);
  }

  lemma RoundRatioMonotone(n1: int, n2: int, d: int)
    requires d > 0 && n1 <= n2
    ensures RoundRatio(n1, d) <= RoundRatio(n2, d)
  {
    var q1, q2 := RoundRatio(n1, d), RoundRatio(n2, d);
    if q1 > q2 {
      MulMonotone(2 * d, q2 + 1, q1);
    }
  }

  /** For a fixed manufacturer and type, a later year is never cheaper. */
  lemma PriceNonDecreasingInYear(manufacturer: string, vehicleType: string, y1: int, y2: int)
    requires y1 <= y2
    ensures GeneratePrice(manufacturer, vehicleType, y1) <= GeneratePrice(manufacturer, vehicleType, y2)
  {
    var p := MultiplierProduct(manufacturer, vehicleType);
    MulMonotone(p, PriceYearMultiplier(y1), PriceYearMultiplier(y2));
    MulMonotone(BasePrice, p * PriceYearMultiplier(y1), p * PriceYearMultiplier(y2));
    RoundRatioMonotone(ScaledPrice(manufacturer, vehicleType, y1), ScaledPrice(manufacturer, vehicleType, y2), 10000 * 1000);
  }

  lemma TeslaTruckPrice2015()
    ensures GeneratePrice("Tesla", "Truck", 2015) == 69000
  {
  }

  function BaseCapacity(vehicleType: string): (kwh: int)
    ensures 60 <= kwh <= 150
    ensures vehicleType !in BaseCapacityTable ==> kwh == 60
  {
    Lookup(BaseCapacityTable, vehicleType, 60)
  }

  function BaseRange(vehicleType: string): (miles: int)
    ensures 150 <= miles <= 250
    ensures vehicleType !in BaseRangeTable ==> miles == 200
  {
    Lookup(BaseRangeTable, vehicleType, 200)
  }

  /** The jitter factor `0.9 + u * 0.2`. */
  function Jitter(u: real): real
  {
    0.9 + u * 0.2
  }

  /** A jittered non-negative value `k * Jitter(u)` lies in [0.9 k, 1.1 k). */
  lemma JitterBounds(k: real, u: real)
    requires IsUnit(u)
    ensures k >= 0.0 ==> 0.9 * k <= k * Jitter(u) <= 1.1 * k
    ensures k < 0.0 ==> 1.1 * k <= k * Jitter(u) <= 0.9 * k
  {
    assert k * Jitter(u) == 0.9 * k + 0.2 * (k * u);
    if k >= 0.0 {
      assert 0.0 <= k * u <= k;
    } else {
      assert k <= k * u <= 0.0;
    }
  }

  /** `generateBatteryCapacity`: the type's base capacity, jittered and rounded. */
  function GenerateBatteryCapacity(vehicleType: string, u: real): (kwh: int)
    requires IsUnit(u)
    ensures Round(0.9 * BaseCapacity(vehicleType) as real) <= kwh <= Round(1.1 * BaseCapacity(vehicleType) as real)
    ensures kwh >= 54
  {
    var base := BaseCapacity(vehicleType) as real;
    JitterBounds(base, u);
    RoundMonotone(0.9 * base, base * Jitter(u));
    RoundMonotone(base * Jitter(u), 1.1 * base);
    RoundMonotone(54.0, 0.9 * base);
    Round(base * Jitter(u))
  }

  /** `1 + (year - 2015) * 0.05`, in hundredths. */
  function RangeYearMultiplier(year: int): int
  {
    100 + 5 * (year - FirstYear)
  }

  /** Base range scaled by the year multiplier, before jitter. */
  function YearAdjustedRange(vehicleType: string, year: int): real
  {
    BaseRange(vehicleType) as real * (RangeYearMultiplier(year) as real / 100.0)
  }

  /** Rounding a jittered value stays between the rounded ends of its jitter interval. */
  lemma JitteredRoundBounds(k: real, u: real)
    requires IsUnit(u)
    ensures k >= 0.0 ==> Round(0.9 * k) <= Round(k * Jitter(u)) <= Round(1.1 * k)
    ensures k < 0.0 ==> Round(1.1 * k) <= Round(k * Jitter(u)) <= Round(0.9 * k)
  {
    JitterBounds(k, u);
    var x := k * Jitter(u);
    if k >= 0.0 {
      assert 0.9 * k <= x <= 1.1 * k;
      RoundMonotone(0.9 * k, x);
      RoundMonotone(x, 1.1 * k);
    } else {
      assert 1.1 * k <= x <= 0.9 * k;
      RoundMonotone(1.1 * k, x);
      RoundMonotone(x, 0.9 * k);
    }
  }

  /** `generateRange`: base range times the year multiplier, jittered and rounded. */
  function GenerateRange(vehicleType: string, year: int, u: real): int
    requires IsUnit(u)
  {
    Round(YearAdjustedRange(vehicleType, year) * Jitter(u))
  }

  /** The range lies between the rounded ends of the jitter interval around
      the year-adjusted base range. */
  lemma GenerateRangeBounds(vehicleType: string, year: int, u: real)
    requires IsUnit(u)
    ensures var k, miles := YearAdjustedRange(vehicleType, year), GenerateRange(vehicleType, year, u);
      (k >= 0.0 ==> Round(0.9 * k) <= miles <= Round(1.1 * k))
      && (k < 0.0 ==> Round(1.1 * k) <= miles <= Round(0.9 * k))
  {
    var k := YearAdjustedRange(vehicleType, year);
    JitteredRoundBounds(k, u);
    assert GenerateRange(vehicleType, year, u) == Round(k * Jitter(u));
  }

  /** From 2015 on the range is at least round(0.9 * 150) = 135 miles. */
  lemma RangePositive(vehicleType: string, year: int, u: real)
    requires IsUnit(u) && year >= FirstYear
    ensures GenerateRange(vehicleType, year, u) >= 135
  {
    GenerateRangeBounds(vehicleType, year, u);
    assert RangeYearMultiplier(year) as real / 100.0 >= 1.0;
    RealMulMonotone(BaseRange(vehicleType) as real, 1.0, RangeYearMultiplier(year) as real / 100.0);
    RoundMonotone(135.0, 0.9 * YearAdjustedRange(vehicleType, year));
  }

  lemma RealMulMonotone(c: real, a: real, b: real)
    requires c >= 0.0 && a <= b
    ensures c * a <= c * b
  {
    assert c * b - c * a == c * (b - a);
  }

  /** Jittering with the same factor and rounding keeps the order of two values. */
  lemma JitteredRoundMonotone(k1: real, k2: real, j: real)
    requires k1 <= k2 && j >= 0.0
    ensures Round(k1 * j) <= Round(k2 * j)
  {
    RealMulMonotone(j, k1, k2);
    assert k1 * j == j * k1 && k2 * j == j * k2;
    RoundMonotone(k1 * j, k2 * j);
  }

  /** For a fixed type and jitter draw the range never decreases with the year. */
  lemma RangeNonDecreasingInYear(vehicleType: string, y1: int, y2: int, u: real)
    requires IsUnit(u) && y1 <= y2
    ensures GenerateRange(vehicleType, y1, u) <= GenerateRange(vehicleType, y2, u)
  {
    var k1, k2 := YearAdjustedRange(vehicleType, y1), YearAdjustedRange(vehicleType, y2);
    assert k1 <= k2 by {
      RealMulMonotone(BaseRange(vehicleType) as real,
        RangeYearMultiplier(y1) as real / 100.0, RangeYearMultiplier(y2) as real / 100.0);
    }
    JitteredRoundMonotone(k1, k2, Jitter(u));
  }

  lemma BusBoundsExamples(u: real)
    requires IsUnit(u)
    ensures 135 <= GenerateBatteryCapacity("Bus", u) <= 165
    ensures 135 <= GenerateRange("Bus", 2015, u) <= 165
    ensures 189 <= GenerateRange("Bus", 2023, u) <= 231
  {
    assert YearAdjustedRange("Bus", 2015) == 150.0;
    assert YearAdjustedRange("Bus", 2023) == 210.0;
    GenerateRangeBounds("Bus", 2015, u);
    GenerateRangeBounds("Bus", 2023, u);
  }

  // ---------------------------------------------------------------------------
  // Records

  /** The record `generateEntry` builds from draws `d`, the fresh id and the
      current year. */
  function Entry(d: Draws, id: string, currentYear: int): Vehicle
    requires ValidDraws(d)
  {
    var manufacturer := Pick(Manufacturers, d.manufacturer).name;
    var vehicleType := Pick(VehicleTypes, d.vehicleType).name;
    var year := RandomYear(d.year, currentYear);
    Vehicle(
      id,
      manufacturer,
      vehicleType,
      GenerateModel(manufacturer, vehicleType, d.model),
      year,
      Regions[UniformIndex(d.region, |Regions|)],
      GeneratePrice(manufacturer, vehicleType, year),
      GenerateBatteryCapacity(vehicleType, d.battery),
      GenerateRange(vehicleType, year, d.range))
  }

  /** The invariants every generated record satisfies. */
  predicate WellFormed(v: Vehicle, currentYear: int)
  {
    && v.manufacturer in Names(Manufacturers)
    && v.vehicleType in Names(VehicleTypes)
    && v.model in ModelsOf(v.manufacturer)
    && FirstYear <= v.year <= currentYear
    && v.region in Regions
    && v.price > 0 && v.price % 1000 == 0
    && Round(0.9 * BaseCapacity(v.vehicleType) as real) <= v.batteryCapacity
    && v.batteryCapacity <= Round(1.1 * BaseCapacity(v.vehicleType) as real)
    && Round(0.9 * YearAdjustedRange(v.vehicleType, v.year)) <= v.range
    && v.range <= Round(1.1 * YearAdjustedRange(v.vehicleType, v.year))
    && v.range > 0
  }

  lemma NameInNames(items: seq<WeightedItem>, item: WeightedItem)
    requires item in items
    ensures item.name in Names(items)
  {
    var i :| 0 <= i < |items| && items[i] == item;
    assert Names(items)[i] == item.name;
  }

  /** From 2015 on a price is a positive multiple of 1000. */
  lemma PriceWellFormed(manufacturer: string, vehicleType: string, year: int)
    requires year >= FirstYear
    ensures GeneratePrice(manufacturer, vehicleType, year) > 0
    ensures GeneratePrice(manufacturer, vehicleType, year) % 1000 == 0
  {
    PriceSign(manufacturer, vehicleType, year);
  }

  /** From 2015 on a range is positive and within the jitter interval. */
  lemma RangeWellFormed(vehicleType: string, year: int, u: real)
    requires IsUnit(u) && year >= FirstYear
    ensures var k, miles := YearAdjustedRange(vehicleType, year), GenerateRange(vehicleType, year, u);
      Round(0.9 * k) <= miles <= Round(1.1 * k) && miles > 0
  {
    RangePositive(vehicleType, year, u);
    GenerateRangeBounds(vehicleType, year, u);
    assert YearAdjustedRange(vehicleType, year) >= 0.0 by {
      RealMulMonotone(BaseRange(vehicleType) as real, 0.0, RangeYearMultiplier(year) as real / 100.0);
    }
  }

  lemma EntryWellFormed(d: Draws, id: string, currentYear: int)
    requires ValidDraws(d) && currentYear >= FirstYear
    ensures WellFormed(Entry(d, id, currentYear), currentYear)
    ensures Entry(d, id, currentYear).id == id
  {
    var v := Entry(d, id, currentYear);
    NameInNames(Manufacturers, Pick(Manufacturers, d.manufacturer));
    NameInNames(VehicleTypes, Pick(VehicleTypes, d.vehicleType));
    PriceWellFormed(v.manufacturer, v.vehicleType, v.year);
    RangeWellFormed(v.vehicleType, v.year, d.range);
  }

  /** `generateEntry`. */
  method GenerateEntry(d: Draws, id: string, currentYear: int) returns (v: Vehicle)
    requires ValidDraws(d)
    ensures v == Entry(d, id, currentYear)
    ensures currentYear >= FirstYear ==> WellFormed(v, currentYear)
  {
    var manufacturer := WeightedRandom(Manufacturers, d.manufacturer);
    var vehicleType := WeightedRandom(VehicleTypes, d.vehicleType);
    var year := RandomYear(d.year, currentYear);
    var m, t := manufacturer.value.name, vehicleType.value.name;
    v := Vehicle(
      id,
      m,
      t,
      GenerateModel(m, t, d.model),
      year,
      Regions[UniformIndex(d.region, |Regions|)],
      GeneratePrice(m, t, year),
      GenerateBatteryCapacity(t, d.battery),
      GenerateRange(t, year, d.range));
    if currentYear >= FirstYear {
      EntryWellFormed(d, id, currentYear);
    }
  }

  /** `data` holds, at every position i, the record built from draws[i] and ids[i]. */
  predicate Generated(data: seq<Vehicle>, draws: seq<Draws>, ids: seq<string>, currentYear: int)
    requires |data| <= |draws| && |data| <= |ids|
    requires forall i :: 0 <= i < |data| ==> ValidDraws(draws[i])
  {
    forall i :: 0 <= i < |data| ==> data[i] == Entry(draws[i], ids[i], currentYear)
  }

  lemma GeneratedAppend(data: seq<Vehicle>, v: Vehicle, draws: seq<Draws>, ids: seq<string>, currentYear: int)
    requires |data| < |draws| && |data| < |ids|
    requires forall i :: 0 <= i <= |data| ==> ValidDraws(draws[i])
    requires Generated(data, draws, ids, currentYear)
    requires v == Entry(draws[|data|], ids[|data|], currentYear)
    ensures Generated(data + [v], draws, ids, currentYear)
  {
    var next := data + [v];
    forall i | 0 <= i < |next|
      ensures next[i] == Entry(draws[i], ids[i], currentYear)
    {
      if i < |data| {
        assert next[i] == data[i];
      }
    }
  }

  /** `generateData(count)`: record i is built from draws[i] and ids[i]; a
      negative count yields no records, as `Array.from({ length: count })` does. */
  method GenerateData(count: int, draws: seq<Draws>, ids: seq<string>, currentYear: int)
    returns (data: seq<Vehicle>)
    requires count <= |draws| && count <= |ids|
    requires forall i :: 0 <= i < count ==> ValidDraws(draws[i])
    ensures |data| == if count < 0 then 0 else count
    ensures Generated(data, draws, ids, currentYear)
    ensures currentYear >= FirstYear ==> forall i :: 0 <= i < |data| ==> WellFormed(data[i], currentYear)
  {
    data := [];
    var i := 0;
    while i < count
      invariant 0 <= i <= (if count < 0 then 0 else count)
      invariant |data| == i
      invariant Generated(data, draws, ids, currentYear)
    {
      var v := GenerateEntry(draws[i], ids[i], currentYear);
      GeneratedAppend(data, v, draws, ids, currentYear);
      data := data + [v];
      i := i + 1;
    }
    if currentYear >= FirstYear {
      EntriesWellFormed(data, draws, ids, currentYear);
    }
  }

  lemma EntriesWellFormed(data: seq<Vehicle>, draws: seq<Draws>, ids: seq<string>, currentYear: int)
    requires |data| <= |draws| && |data| <= |ids| && currentYear >= FirstYear
    requires forall i :: 0 <= i < |data| ==> ValidDraws(draws[i])
    requires Generated(data, draws, ids, currentYear)
    ensures forall i :: 0 <= i < |data| ==> WellFormed(data[i], currentYear)
  {
    forall k | 0 <= k < |data|
      ensures WellFormed(data[k], currentYear)
    {
      EntryWellFormed(draws[k], ids[k], currentYear);
    }
  }
}
