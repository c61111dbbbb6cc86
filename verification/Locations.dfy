module Locations {
  /** An ONT's physical position on its OLT. */
  datatype Location = Location(slot: int, port: int, ont: int)
}
