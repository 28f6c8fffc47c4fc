/** The three technical-knowledge tiers. The route, the redraft page and the admin page each
    write the same if-chain (`<= 2`, `<= 4`, otherwise); `TierOf` is the one reference
    classification that each of those chains is proved to agree with. */
module Levels {

  datatype Tier = Beginner | Intermediate | Advanced

  /** Levels up to 2 are beginners, 3 and 4 intermediate, everything above 4 advanced. */
  function TierOf(level: int): Tier {
    if level <= 2 then Beginner
    else if level <= 4 then Intermediate
    else Advanced
  }
}
