/** A JavaScript array that several functions push into. */
module Logs {

  class Log<T> {
    var items: seq<T>

    constructor ()
      ensures items == []
    {
      items := [];
    }

    method Push(x: T)
      modifies this
      ensures items == old(items) + [x]
    {
      items := items + [x];
    }
  }
}
