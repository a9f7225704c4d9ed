/**
 * How the literal strings of the resolver's tests split into the spellings
 * of their pieces: each fact joins one piece's text to the text after it.
 */
module TestStrings {
  // `-{{tag2}}-{{tag3}}-%y-%m`

  lemma Tag2Join()
    ensures "{{tag2}}" + "-{{tag3}}-%y-%m" == "{{tag2}}-{{tag3}}-%y-%m"
  {
  }

  lemma Tag23Join()
    ensures "-" + "{{tag2}}-{{tag3}}-%y-%m" == "-{{tag2}}-{{tag3}}-%y-%m"
  {
  }

  // `-%s-%s-%y-%m`

  lemma Slot2Join()
    ensures "%s" + "-%s-%y-%m" == "%s-%s-%y-%m"
  {
  }

  lemma Slot23Join()
    ensures "-" + "%s-%s-%y-%m" == "-%s-%s-%y-%m"
  {
  }

  // `indexname-{{tag1}}-{{tag2}}-{{tag3}}-%y-%m`

  lemma Tag1Join()
    ensures "{{tag1}}" + "-{{tag2}}-{{tag3}}-%y-%m" == "{{tag1}}-{{tag2}}-{{tag3}}-%y-%m"
  {
  }

  lemma ThreeTagsJoin()
    ensures "indexname-" + "{{tag1}}-{{tag2}}-{{tag3}}-%y-%m" == "indexname-{{tag1}}-{{tag2}}-{{tag3}}-%y-%m"
  {
  }

  // `indexname-%s-%s-%s-%y-%m`

  lemma Slot1Join()
    ensures "%s" + "-%s-%s-%y-%m" == "%s-%s-%s-%y-%m"
  {
  }

  lemma ThreeSlotsJoin()
    ensures "indexname-" + "%s-%s-%s-%y-%m" == "indexname-%s-%s-%s-%y-%m"
  {
  }
}
