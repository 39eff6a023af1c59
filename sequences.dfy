/** Small facts about string concatenation shared by the other modules. */
module Sequences {

  lemma AppendAssoc(x: string, y: string, z: string)
    ensures x + (y + z) == (x + y) + z
  {
  }
}
