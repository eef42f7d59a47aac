/** The closed catalogue of fuel types each company sells. */
module FuelRules {
  import opened Entity

  /** The constant company-to-types map, in the order the catalogue lists them. */
  const Catalog: map<FuelCompany, seq<FuelType>> := map[
    IndianOil := [Normal, Xp95, Xp100],
    Hp := [Normal, Power, Power99, Power100],
    Bpcl := [Normal, Speed, Speed97],
    Shell := [Normal, VPower],
    JioBp := [Normal, JioActive, JioPremium]
  ]

  /** The map holds every company, so the empty-list fallback of the lookup is never taken. */
  lemma EveryCompanyListed(company: FuelCompany)
    ensures company in Catalog && |Catalog[company]| > 0
  {
    match company
    case IndianOil =>
    case Hp =>
    case Bpcl =>
    case Shell =>
    case JioBp =>
  }

  /** `map[company] ?: emptyList()`: a non-empty, repetition-free list that starts with `Normal`. */
  function AllowedFuelTypes(company: FuelCompany): (types: seq<FuelType>)
    ensures company in Catalog && types == Catalog[company]
    ensures |types| > 0 && types[0] == Normal
    ensures forall i, j :: 0 <= i < j < |types| ==> types[i] != types[j]
  {
    EveryCompanyListed(company);
    if company in Catalog then Catalog[company] else []
  }

  /** The five lists, literally. */
  lemma CatalogEntries()
    ensures AllowedFuelTypes(IndianOil) == [Normal, Xp95, Xp100]
    ensures AllowedFuelTypes(Hp) == [Normal, Power, Power99, Power100]
    ensures AllowedFuelTypes(Bpcl) == [Normal, Speed, Speed97]
    ensures AllowedFuelTypes(Shell) == [Normal, VPower]
    ensures AllowedFuelTypes(JioBp) == [Normal, JioActive, JioPremium]
  {
  }

  /** `Normal` is the only grade two different companies both sell. */
  lemma OnlyNormalIsShared(c1: FuelCompany, c2: FuelCompany, t: FuelType)
    requires c1 != c2
    requires t in AllowedFuelTypes(c1) && t in AllowedFuelTypes(c2)
    ensures t == Normal
  {
  }
}
