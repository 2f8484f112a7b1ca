/**
 * The part of the app store snapshot that the three screens read: the day
 * records. The store itself (persistence, `ensureDay`, `setWeight`, the
 * other collections) is not part of this model; a snapshot is an input.
 */
module Store {
  import opened Common

  /** The drink and activity counters of one day (`day.drinks`). */
  datatype Drinks = Drinks(water: nat, sport: bool, waterCure: bool)

  /** One record of `state.days`. `weight` is present when the user logged a
      numeric weight that day; `drinks` is absent on records created before
      anything was counted. */
  datatype DayRecord = DayRecord(date: string, weight: Option<real>, drinks: Option<Drinks>)

  /** `d.drinks?.water || 0`. */
  function WaterOf(d: DayRecord): nat
  {
    if d.drinks.Some? then d.drinks.value.water else 0
  }

  /** `!!d.drinks?.sport`. */
  predicate DidSport(d: DayRecord)
  {
    d.drinks.Some? && d.drinks.value.sport
  }

  /** The record's date field: the key the screens sort day records by. */
  function DateOf(d: DayRecord): string
  {
    d.date
  }
}
