/** What a pulse reports, in ascending order of success (`states-impl.h`). */
module PortStatus {
  datatype Status = PortError | PortUnmapped | PortUnmapping | PortMapping | PortMapped

  function Rank(s: Status): nat {
    match s
    case PortError => 0
    case PortUnmapped => 1
    case PortUnmapping => 2
    case PortMapping => 3
    case PortMapped => 4
  }
}
