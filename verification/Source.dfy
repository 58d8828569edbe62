/** A child operator: it hands out its tuples one by one. */
module Source {
  import opened CText

  class Source<T(0)> {
    const rows: seq<T>
    var pos: nat

    ghost predicate Valid()
      reads this
    {
      pos <= |rows|
    }

    /** The tuples still to come. */
    ghost function Rest(): seq<T>
      requires Valid()
      reads this
    {
      rows[pos..]
    }

    constructor (rows: seq<T>)
      ensures Valid() && pos == 0 && Rest() == rows && this.rows == rows
    {
      this.rows, pos := rows, 0;
    }

    /** `None` is the empty tuple at the end. */
    method GetTuple() returns (r: Option<T>)
      requires Valid()
      modifies this
      ensures Valid()
      ensures if old(Rest()) == [] then r == None && Rest() == []
              else r == Some(old(Rest())[0]) && Rest() == old(Rest())[1..]
    {
      if pos == |rows| {
        return None;
      }
      r := Some(rows[pos]);
      pos := pos + 1;
    }
  }
}
