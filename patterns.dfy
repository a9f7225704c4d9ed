/**
 * The patterns, tags and default value of the resolver's tests, written as
 * pieces, with what each pattern spells and how its pieces read.
 */
module VectorPatterns {
  import opened IndexName
  import opened PatternPieces
  import opened TestStrings

  const Tags: map<string, string> := map["tag1" := "value1", "tag2" := "value2"]

  const DefaultTag: string := "none"

  /** What each directive prints at 2014-12-01 23:30 UTC, the event time of the tests. */
  const EventStamp: DateStrings := DateStrings("2014", "14", "12", "01", "23", "49")

  // The patterns of the GetIndexName tests, piece by piece.

  const Plain: Pattern := Then(Text("indexname"), End)
  const Year: Pattern := Then(Text("indexname-"), Then(Time('Y'), End))
  const YearMonth: Pattern := Then(Text("indexname-"), Then(Time('Y'), Then(Text("-"), Then(Time('m'), End))))
  const YearMonthDay: Pattern :=
    Then(Text("indexname-"), Then(Time('Y'), Then(Text("-"), Then(Time('m'), Then(Text("-"), Then(Time('d'), End))))))
  const YearMonthDayHour: Pattern :=
    Then(Text("indexname-"), Then(Time('Y'), Then(Text("-"), Then(Time('m'), Then(Text("-"), Then(Time('d'),
    Then(Text("-"), Then(Time('H'), End))))))))
  const ShortYearMonth: Pattern := Then(Text("indexname-"), Then(Time('y'), Then(Text("-"), Then(Time('m'), End))))
  const YearWeek: Pattern := Then(Text("indexname-"), Then(Time('Y'), Then(Text("-"), Then(Time('V'), End))))

  /** The `-%y-%m` ending of the patterns with placeholders. */
  const ShortYearMonthTail: Pattern := Then(Text("-"), Then(Time('y'), Then(Text("-"), Then(Time('m'), End))))
  /** `-{{tag2}}-%y-%m` and `-{{tag3}}-%y-%m`, and `-{{tag2}}-{{tag3}}-%y-%m`. */
  const Tag2Tail: Pattern := Then(Text("-"), Then(Placeholder("tag2"), ShortYearMonthTail))
  const Tag3Tail: Pattern := Then(Text("-"), Then(Placeholder("tag3"), ShortYearMonthTail))
  const Tag23Tail: Pattern := Then(Text("-"), Then(Placeholder("tag2"), Tag3Tail))
  const OneTag: Pattern := Then(Text("indexname-"), Then(Placeholder("tag1"), ShortYearMonthTail))
  const TwoTags: Pattern := Then(Text("indexname-"), Then(Placeholder("tag1"), Tag2Tail))
  const ThreeTags: Pattern := Then(Text("indexname-"), Then(Placeholder("tag1"), Tag23Tail))

  // What each pattern spells and how its pieces read at the event time.

  /** The values the tests' tags give each key; `tag3` is missing and takes the default. */
  lemma TestTagValues()
    ensures TagValue(Tags, "tag1", DefaultTag) == "value1" && TagValue(Tags, "tag2", DefaultTag) == "value2"
    ensures TagValue(Tags, "tag3", DefaultTag) == "none"
  {
  }

  lemma TailReading()
    ensures Resolved(ShortYearMonthTail, EventStamp, [], Tags, DefaultTag) == "-14-12"
  {
  }

  lemma PlainSpelling()
    ensures Spell(Plain) == "indexname"
  {
  }

  lemma PlainResolvable()
    ensures NameResolved(Plain)
  {
  }

  lemma PlainReading()
    ensures Resolved(Plain, EventStamp, [], Tags, DefaultTag) == "indexname"
  {
  }

  lemma YearSpelling()
    ensures Spell(Year) == "indexname-%Y"
  {
  }

  lemma YearResolvable()
    ensures NameResolved(Year)
  {
  }

  lemma YearReading()
    ensures Resolved(Year, EventStamp, [], Tags, DefaultTag) == "indexname-2014"
  {
  }

  lemma YearMonthSpelling()
    ensures Spell(YearMonth) == "indexname-%Y-%m"
  {
  }

  lemma YearMonthResolvable()
    ensures NameResolved(YearMonth)
  {
  }

  lemma YearMonthReading()
    ensures Resolved(YearMonth, EventStamp, [], Tags, DefaultTag) == "indexname-2014-12"
  {
  }

  lemma YearMonthDaySpelling()
    ensures Spell(YearMonthDay) == "indexname-%Y-%m-%d"
  {
  }

  lemma YearMonthDayResolvable()
    ensures NameResolved(YearMonthDay)
  {
  }

  lemma YearMonthDayReading()
    ensures Resolved(YearMonthDay, EventStamp, [], Tags, DefaultTag) == "indexname-2014-12-01"
  {
  }

  lemma YearMonthDayHourSpelling()
    ensures Spell(YearMonthDayHour) == "indexname-%Y-%m-%d-%H"
  {
  }

  lemma YearMonthDayHourResolvable()
    ensures NameResolved(YearMonthDayHour)
  {
  }

  lemma YearMonthDayHourReading()
    ensures Resolved(YearMonthDayHour, EventStamp, [], Tags, DefaultTag) == "indexname-2014-12-01-23"
  {
  }

  lemma ShortYearMonthSpelling()
    ensures Spell(ShortYearMonth) == "indexname-%y-%m"
  {
  }

  lemma ShortYearMonthResolvable()
    ensures NameResolved(ShortYearMonth)
  {
  }

  lemma ShortYearMonthReading()
    ensures Resolved(ShortYearMonth, EventStamp, [], Tags, DefaultTag) == "indexname-14-12"
  {
  }

  lemma YearWeekSpelling()
    ensures Spell(YearWeek) == "indexname-%Y-%V"
  {
  }

  lemma YearWeekResolvable()
    ensures NameResolved(YearWeek)
  {
  }

  lemma YearWeekReading()
    ensures Resolved(YearWeek, EventStamp, [], Tags, DefaultTag) == "indexname-2014-49"
  {
  }

  lemma OneTagSpelling()
    ensures Spell(OneTag) == "indexname-{{tag1}}-%y-%m"
  {
  }

  lemma OneTagNormalSpelling()
    ensures Spell(Normalised(OneTag)) == "indexname-%s-%y-%m"
  {
  }

  lemma OneTagKeyList()
    ensures KeyScanned(OneTag) && Keys(OneTag) == ["tag1"]
  {
  }

  lemma OneTagResolvable()
    ensures NameResolved(Normalised(OneTag))
  {
  }

  lemma OneTagReading()
    ensures Resolved(Normalised(OneTag), EventStamp, ["tag1"], Tags, DefaultTag) == "indexname-value1-14-12"
  {
    TestTagValues();
  }

  lemma TailSpelling()
    ensures Spell(ShortYearMonthTail) == "-%y-%m" && Spell(Normalised(ShortYearMonthTail)) == "-%y-%m"
  {
  }

  lemma Tag2TailSpelling()
    ensures Spell(Tag2Tail) == "-{{tag2}}-%y-%m"
    ensures Spell(Normalised(Tag2Tail)) == "-%s-%y-%m"
  {
    TailSpelling();
  }

  lemma Tag3TailSpelling()
    ensures Spell(Tag3Tail) == "-{{tag3}}-%y-%m"
    ensures Spell(Normalised(Tag3Tail)) == "-%s-%y-%m"
  {
    TailSpelling();
  }

  lemma Tag23TailShape()
    ensures Spell(Tag23Tail) == "-" + (SpellOne(Placeholder("tag2")) + Spell(Tag3Tail))
    ensures Spell(Normalised(Tag23Tail)) == "-" + (Slot + Spell(Normalised(Tag3Tail)))
  {
  }

  lemma Tag23TailSpelling()
    ensures Spell(Tag23Tail) == "-{{tag2}}-{{tag3}}-%y-%m"
    ensures Spell(Normalised(Tag23Tail)) == "-%s-%s-%y-%m"
  {
    Tag23TailShape();
    PlaceholderSpellings();
    Tag3TailSpelling();
    Tag2Join();
    Tag23Join();
    Slot2Join();
    Slot23Join();
  }

  lemma TwoTagsSpelling()
    ensures Spell(TwoTags) == "indexname-{{tag1}}-{{tag2}}-%y-%m"
  {
    Tag2TailSpelling();
  }

  lemma TwoTagsNormalSpelling()
    ensures Spell(Normalised(TwoTags)) == "indexname-%s-%s-%y-%m"
  {
    Tag2TailSpelling();
  }

  lemma TwoTagsKeyList()
    ensures KeyScanned(TwoTags) && Keys(TwoTags) == ["tag1", "tag2"]
  {
  }

  lemma TwoTagsResolvable()
    ensures NameResolved(Normalised(TwoTags))
  {
  }

  lemma TwoTagsReading()
    ensures Resolved(Normalised(TwoTags), EventStamp, ["tag1", "tag2"], Tags, DefaultTag) == "indexname-value1-value2-14-12"
  {
    TestTagValues();
  }

  lemma PlaceholderSpellings()
    ensures SpellOne(Placeholder("tag1")) == "{{tag1}}" && SpellOne(Placeholder("tag2")) == "{{tag2}}"
  {
  }

  lemma ThreeTagsShape()
    ensures Spell(ThreeTags) == "indexname-" + (SpellOne(Placeholder("tag1")) + Spell(Tag23Tail))
    ensures Spell(Normalised(ThreeTags)) == "indexname-" + (Slot + Spell(Normalised(Tag23Tail)))
  {
  }

  lemma ThreeTagsSpelling()
    ensures Spell(ThreeTags) == "indexname-{{tag1}}-{{tag2}}-{{tag3}}-%y-%m"
  {
    ThreeTagsShape();
    PlaceholderSpellings();
    Tag23TailSpelling();
    Tag1Join();
    ThreeTagsJoin();
  }

  lemma ThreeTagsNormalSpelling()
    ensures Spell(Normalised(ThreeTags)) == "indexname-%s-%s-%s-%y-%m"
  {
    ThreeTagsShape();
    Tag23TailSpelling();
    Slot1Join();
    ThreeSlotsJoin();
  }

  lemma ThreeTagsKeyList()
    ensures KeyScanned(ThreeTags) && Keys(ThreeTags) == ["tag1", "tag2", "tag3"]
  {
  }

  lemma ThreeTagsResolvable()
    ensures NameResolved(Normalised(ThreeTags))
  {
  }

  lemma ThreeTagsReading()
    ensures Resolved(Normalised(ThreeTags), EventStamp, ["tag1", "tag2", "tag3"], Tags, DefaultTag)
         == "indexname-value1-value2-none-14-12"
  {
    TestTagValues();
    Tag23TailReading();
    assert ["tag1", "tag2", "tag3"][1..] == ["tag2", "tag3"];
  }

  lemma Tag3TailReading()
    ensures Resolved(Normalised(Tag3Tail), EventStamp, ["tag3"], Tags, DefaultTag) == "-none-14-12"
  {
    TestTagValues();
    TailReading();
  }

  lemma Tag23TailReading()
    ensures Resolved(Normalised(Tag23Tail), EventStamp, ["tag2", "tag3"], Tags, DefaultTag) == "-value2-none-14-12"
  {
    TestTagValues();
    Tag3TailReading();
    assert ["tag2", "tag3"][1..] == ["tag3"];
  }
}
