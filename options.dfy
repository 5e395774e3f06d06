/** An optional value: a spreadsheet cell that pandas reads as NaN, a regex
    search that finds nothing, a player without a decklist entry. */
module Options {

  datatype Option<+T> = None | Some(value: T) {

    /** The zero- or one-element sequence holding the value. */
    function ToSeq(): (s: seq<T>)
      ensures |s| == (if Some? then 1 else 0)
      ensures Some? ==> s[0] == value
    {
      match this
      case Some(v) => [v]
      case None => []
    }
  }
}
