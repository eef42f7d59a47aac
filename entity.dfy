/** The `fuel_entries` record of the fuel log and the enums it refers to. */
module Entity {
  import opened Wrappers

  /** The fuel companies; the constants are the cases of the exhaustive `when` in the UI mapper. */
  datatype FuelCompany = IndianOil | Hp | Bpcl | Shell | JioBp

  /** The fuel grades sold by the companies. */
  datatype FuelType =
    | Normal | Xp95 | Xp100 | Speed | Speed97 | Power | Power99 | Power100
    | VPower | JioActive | JioPremium

  /**
   * One refuelling event. `dateTime` is an epoch instant (a `Long`), `odometer` and
   * `quantity` are exact reals rather than doubles, and `mileage` is the derived
   * distance per unit of fuel that only the mileage sweep writes.
   */
  datatype FuelEntry = FuelEntry(
    id: int,
    dateTime: int,
    odometer: real,
    quantity: real,
    pricePerLitre: real,
    totalCost: real,
    isFullTank: bool,
    fuelCompany: FuelCompany,
    fuelType: FuelType,
    notes: Option<string>,
    mileage: Option<real>)

  /**
   * The data-class constructor with its default arguments: an entry that has not been
   * stored yet carries id 0 (so the store generates one) and no mileage.
   */
  function NewEntry(dateTime: int, odometer: real, quantity: real, pricePerLitre: real,
                    totalCost: real, isFullTank: bool, fuelCompany: FuelCompany,
                    fuelType: FuelType, notes: Option<string>): (e: FuelEntry)
    ensures e.id == 0 && e.mileage == None
    ensures e.dateTime == dateTime && e.odometer == odometer && e.quantity == quantity
    ensures e.isFullTank == isFullTank && e.notes == notes
    ensures e.pricePerLitre == pricePerLitre && e.totalCost == totalCost
    ensures e.fuelCompany == fuelCompany && e.fuelType == fuelType
  {
    FuelEntry(0, dateTime, odometer, quantity, pricePerLitre, totalCost, isFullTank,
              fuelCompany, fuelType, notes, None)
  }
}
