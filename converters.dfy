/** The JPA attribute converter that stores a nullable `Boolean` entity attribute
    in a nullable `Integer` column. Java `null` is `None`. */
module Converters {
  import opened Wrappers
  import opened Text

  /** convertToDatabaseColumn: null stays null, true becomes 1, false becomes 0. */
  function ToDatabaseColumn(attribute: Option<bool>): (r: Option<Int32>)
    ensures r.None? <==> attribute.None?
    ensures r.Some? ==> r.value == 0 || r.value == 1
    ensures r.Some? ==> (r.value == 1 <==> attribute.value)
  {
    match attribute
    case None => None
    case Some(b) => Some(if b then 1 else 0)
  }

  /** convertToEntityAttribute: null stays null, 0 is false, every other value is true. */
  function ToEntityAttribute(dbData: Option<Int32>): (r: Option<bool>)
    ensures r.None? <==> dbData.None?
    ensures r.Some? ==> (r.value <==> dbData.value != 0)
  {
    match dbData
    case None => None
    case Some(i) => Some(i != 0)
  }

  /** Every Boolean, null included, survives a trip to the column and back. */
  lemma EntityRoundTrip(attribute: Option<bool>)
    ensures ToEntityAttribute(ToDatabaseColumn(attribute)) == attribute
  {
  }

  /** A column value survives a trip to the entity and back exactly when it is null, 0 or 1. */
  lemma ColumnRoundTrip(dbData: Option<Int32>)
    ensures ToDatabaseColumn(ToEntityAttribute(dbData)) == dbData
            <==> dbData.None? || dbData.value == 0 || dbData.value == 1
  {
  }
}
