/** Memory that both sides of a call can reach. */
module SharedMemory {
  import opened Types

  /** A Rust value that can be borrowed. */
  class Place {
    var value: Value

    constructor (value: Value)
      ensures this.value == value
    {
      this.value := value;
    }
  }

  /** A carrier in foreign memory. */
  class Target {
    var c: Carrier

    constructor (c: Carrier)
      ensures this.c == c
    {
      this.c := c;
    }
  }
}
