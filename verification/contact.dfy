/**
 * The `Contact` entity (data/Contact.kt): one row of the `contacts` table.
 *
 * The app holds contacts as objects whose `favourite` field can be written in
 * place; the table stores the values of the four columns.  `Record` is that
 * value, `Contact` the object.
 */
module Contacts {

  /** The four columns of a stored row. */
  datatype Record = Record(name: string, phone: string, favourite: int, id: int)

  /** The id of a contact the table has not yet given a key to. */
  const Unassigned: int := 0

  /** Favourite flag values written by the app: 1 marks a favourite, 0 does not. */
  const Favourite: int := 1
  const NotFavourite: int := 0

  /**
   * A contact object.  `name`, `phone` and `id` are fixed when the object is
   * built; only `favourite` can change afterwards.
   */
  class Contact {
    const name: string
    const phone: string
    var favourite: int
    const id: int

    /** Every argument has a default, as in the entity. */
    constructor (name: string := "", phone: string := "", favourite: int := NotFavourite, id: int := Unassigned)
      ensures this.name == name && this.phone == phone
      ensures this.favourite == favourite && this.id == id
    {
      this.name := name;
      this.phone := phone;
      this.favourite := favourite;
      this.id := id;
    }

    /** The row this object is written as. */
    function AsRecord(): Record
      reads this
    {
      Record(name, phone, favourite, id)
    }
  }

  /** The rows a list of contact objects currently shows, element by element. */
  function Records(cs: seq<Contact>): (rs: seq<Record>)
    reads cs
    ensures |rs| == |cs|
    ensures forall i :: 0 <= i < |cs| ==> rs[i] == cs[i].AsRecord()
  {
    if cs == [] then [] else [cs[0].AsRecord()] + Records(cs[1..])
  }
}
