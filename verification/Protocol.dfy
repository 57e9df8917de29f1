/** The queue names and the result codes of libs/include/protocol.h. */
module Protocol {

  datatype Option<+T> = None | Some(value: T)

  datatype Operation = NEW | LOCALIZED | GET | APPEARED | CATCH | CAUGHT {

    /** The number that stands for the queue on the wire. */
    function Code(): (c: nat) {
      match this
      case NEW => 1
      case LOCALIZED => 2
      case GET => 3
      case APPEARED => 4
      case CATCH => 5
      case CAUGHT => 6
    }
  }

  type byte = n: nat | n < 256
}
