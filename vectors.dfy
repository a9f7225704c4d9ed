/**
 * The resolver's and the template checks' expected results on the inputs
 * of the plugin's unit and integration tests, proved about the model.
 */
module ResolverVectors {
  import opened Wrappers
  import opened Decimal
  import opened Calendar
  import opened IndexName
  import opened TemplateConfig
  import opened PatternPieces
  import opened VectorPatterns

  /** 2014-12-01T23:30:00Z, the event time of every index-name test, to the hour. */
  const EventTime: UtcTime := Instant(2014, 12, 1, 23)

  /** 2014-12-01 is day 735567 counted from 0001-01-01, and a Monday. */
  lemma EventDayNumber()
    ensures DayNumber(EventTime) == 735567 && Weekday(735567) == 1
  {
    assert DaysBeforeYear(2014) == 735233;
    assert DayOfYear(EventTime) == 335;
  }

  /** The Mondays of week 1 of 2014 (2013-12-30) and of 2015 (2014-12-29). */
  lemma Week1Mondays()
    ensures Week1Monday(2014) == 735231 && Week1Monday(2015) == 735595
  {
    assert DaysBeforeYear(2014) == 735233;
    assert DaysBeforeYear(2015) == 735598;
  }

  /** 2014-12-01 is the Monday of ISO week 49 of 2014. */
  lemma EventTimeIsoWeek()
    ensures Weekday(DayNumber(EventTime)) == 1
    ensures IsoWeekDate(EventTime) == WeekDate(2014, 49)
  {
    EventDayNumber();
    Week1Mondays();
    assert DaysBeforeYear(2014) <= 735567 < DaysBeforeYear(2015);
  }

  /** The zero-padded renderings the test event time needs. */
  lemma EventTimePadding()
    ensures Pad(2014, 4) == "2014" && Pad(14, 2) == "14" && Pad(12, 2) == "12"
    ensures Pad(1, 2) == "01" && Pad(23, 2) == "23" && Pad(49, 2) == "49"
  {
    assert Pad(2, 1) == "2" && Pad(20, 2) == "20" && Pad(201, 3) == "201";
    assert Pad(1, 1) == "1" && Pad(0, 1) == "0" && Pad(4, 1) == "4";
  }

  /** The strings the directives print for the test event time. */
  lemma EventStampIsEventTime()
    ensures RenderDate(EventTime) == EventStamp
  {
    EventTimeIsoWeek();
    RenderedAtEventTime(EventTime);
  }

  /** The date strings of any time in the test event's hour. */
  lemma RenderedAtEventTime(t: UtcTime)
    requires t.year == 2014 && t.month == 12 && t.day == 1 && t.hour == 23
    requires IsoWeekDate(t).week == 49
    ensures RenderDate(t) == EventStamp
  {
    RenderedWeek(t, 49);
    YearPadded(t);
    MonthPadded(t);
    DayHourPadded(t);
    WeekPadded();
  }

  lemma YearPadded(t: UtcTime)
    requires t.year == 2014
    ensures Pad(t.year, 4) == "2014" && Pad(t.year % 100, 2) == "14"
  {
    EventTimePadding();
    assert t.year % 100 == 14;
  }

  lemma MonthPadded(t: UtcTime)
    requires t.month == 12
    ensures Pad(t.month, 2) == "12"
  {
    EventTimePadding();
  }

  lemma DayHourPadded(t: UtcTime)
    requires t.day == 1 && t.hour == 23
    ensures Pad(t.day, 2) == "01" && Pad(t.hour, 2) == "23"
  {
    EventTimePadding();
  }

  lemma WeekPadded()
    ensures Pad(49, 2) == "49"
  {
    EventTimePadding();
  }

  /** The date strings of a time whose ISO week is known. */
  lemma RenderedWeek(t: UtcTime, week: nat)
    requires IsoWeekDate(t).week == week
    ensures RenderDate(t) == DateStrings(Pad(t.year, 4), Pad(t.year % 100, 2), Pad(t.month, 2),
                                         Pad(t.day, 2), Pad(t.hour, 2), Pad(week, 2))
  {
  }

  /** At the test event time, GetIndexName runs its two passes with the test's date strings. */
  lemma AtEventTime(p: string, tagKeys: seq<string>)
    ensures GetIndexName(p, EventTime, tagKeys, Tags, DefaultTag)
         == FillSlots(ExpandTime(p, EventStamp), tagKeys, Tags, DefaultTag)
    ensures DigitsOnly(EventStamp)
  {
    EventStampIsEventTime();
  }

  /** A pattern without `{` is its own normalised form and lists no keys. */
  lemma LiteralUnchanged(p: string)
    requires '{' !in p
    ensures GetTagKeys(p) == TagKeys(p, [])
  {
    assert GetTagKeys(p + []) == TagKeys(p + GetTagKeys([]).indexName, GetTagKeys([]).tagKeys) by {
      GetTagKeysAfterLiteral(p, []);
    }
    assert p + [] == p;
  }

  // GetTagKeys: patterns without placeholders come back unchanged with no keys.
  lemma GetTagKeysPlain()
    ensures GetTagKeys("indexname") == TagKeys("indexname", [])
  {
    LiteralUnchanged("indexname");
  }

  lemma GetTagKeysYear()
    ensures GetTagKeys("indexname-%Y") == TagKeys("indexname-%Y", [])
  {
    LiteralUnchanged("indexname-%Y");
  }

  lemma GetTagKeysYearMonth()
    ensures GetTagKeys("indexname-%Y-%m") == TagKeys("indexname-%Y-%m", [])
  {
    LiteralUnchanged("indexname-%Y-%m");
  }

  lemma GetTagKeysYearMonthDay()
    ensures GetTagKeys("indexname-%Y-%m-%d") == TagKeys("indexname-%Y-%m-%d", [])
  {
    LiteralUnchanged("indexname-%Y-%m-%d");
  }

  lemma GetTagKeysYearMonthDayHour()
    ensures GetTagKeys("indexname-%Y-%m-%d-%H") == TagKeys("indexname-%Y-%m-%d-%H", [])
  {
    LiteralUnchanged("indexname-%Y-%m-%d-%H");
  }

  lemma GetTagKeysShortYearMonth()
    ensures GetTagKeys("indexname-%y-%m") == TagKeys("indexname-%y-%m", [])
  {
    LiteralUnchanged("indexname-%y-%m");
  }

  // GetTagKeys: each placeholder becomes a slot and its key is listed in order.

  lemma GetTagKeysOneTag()
    ensures GetTagKeys("indexname-{{tag1}}-%y-%m") == TagKeys("indexname-%s-%y-%m", ["tag1"])
  {
    OneTagSpelling();
    OneTagNormalSpelling();
    OneTagKeyList();
    SpelledTagKeys(OneTag);
  }

  lemma GetTagKeysTwoTags()
    ensures GetTagKeys("indexname-{{tag1}}-{{tag2}}-%y-%m") == TagKeys("indexname-%s-%s-%y-%m", ["tag1", "tag2"])
  {
    TwoTagsSpelling();
    TwoTagsNormalSpelling();
    TwoTagsKeyList();
    SpelledTagKeys(TwoTags);
  }

  lemma GetTagKeysThreeTags()
    ensures GetTagKeys("indexname-{{tag1}}-{{tag2}}-{{tag3}}-%y-%m")
         == TagKeys("indexname-%s-%s-%s-%y-%m", ["tag1", "tag2", "tag3"])
  {
    ThreeTagsSpelling();
    ThreeTagsNormalSpelling();
    ThreeTagsKeyList();
    SpelledTagKeys(ThreeTags);
  }

  // GetIndexName: directives print the event time in UTC; slots take the
  // tag values of the keys in order, the default for a missing tag.

  lemma GetIndexNamePlain()
    ensures GetIndexName("indexname", EventTime, [], Tags, DefaultTag) == "indexname"
  {
    PlainSpelling();
    PlainResolvable();
    PlainReading();
    AtEventTime(Spell(Plain), []);
    SpelledIndexName(Plain, EventStamp, [], Tags, DefaultTag);
  }

  lemma GetIndexNameYear()
    ensures GetIndexName("indexname-%Y", EventTime, [], Tags, DefaultTag) == "indexname-2014"
  {
    YearSpelling();
    YearResolvable();
    YearReading();
    AtEventTime(Spell(Year), []);
    SpelledIndexName(Year, EventStamp, [], Tags, DefaultTag);
  }

  lemma GetIndexNameYearMonth()
    ensures GetIndexName("indexname-%Y-%m", EventTime, [], Tags, DefaultTag) == "indexname-2014-12"
  {
    YearMonthSpelling();
    YearMonthResolvable();
    YearMonthReading();
    AtEventTime(Spell(YearMonth), []);
    SpelledIndexName(YearMonth, EventStamp, [], Tags, DefaultTag);
  }

  lemma GetIndexNameYearMonthDay()
    ensures GetIndexName("indexname-%Y-%m-%d", EventTime, [], Tags, DefaultTag) == "indexname-2014-12-01"
  {
    YearMonthDaySpelling();
    YearMonthDayResolvable();
    YearMonthDayReading();
    AtEventTime(Spell(YearMonthDay), []);
    SpelledIndexName(YearMonthDay, EventStamp, [], Tags, DefaultTag);
  }

  lemma GetIndexNameYearMonthDayHour()
    ensures GetIndexName("indexname-%Y-%m-%d-%H", EventTime, [], Tags, DefaultTag) == "indexname-2014-12-01-23"
  {
    YearMonthDayHourSpelling();
    YearMonthDayHourResolvable();
    YearMonthDayHourReading();
    AtEventTime(Spell(YearMonthDayHour), []);
    SpelledIndexName(YearMonthDayHour, EventStamp, [], Tags, DefaultTag);
  }

  lemma GetIndexNameShortYearMonth()
    ensures GetIndexName("indexname-%y-%m", EventTime, [], Tags, DefaultTag) == "indexname-14-12"
  {
    ShortYearMonthSpelling();
    ShortYearMonthResolvable();
    ShortYearMonthReading();
    AtEventTime(Spell(ShortYearMonth), []);
    SpelledIndexName(ShortYearMonth, EventStamp, [], Tags, DefaultTag);
  }

  lemma GetIndexNameYearWeek()
    ensures GetIndexName("indexname-%Y-%V", EventTime, [], Tags, DefaultTag) == "indexname-2014-49"
  {
    YearWeekSpelling();
    YearWeekResolvable();
    YearWeekReading();
    AtEventTime(Spell(YearWeek), []);
    SpelledIndexName(YearWeek, EventStamp, [], Tags, DefaultTag);
  }

  lemma GetIndexNameOneTag()
    ensures GetIndexName("indexname-%s-%y-%m", EventTime, ["tag1"], Tags, DefaultTag) == "indexname-value1-14-12"
  {
    OneTagNormalSpelling();
    OneTagResolvable();
    OneTagReading();
    AtEventTime(Spell(Normalised(OneTag)), ["tag1"]);
    SpelledIndexName(Normalised(OneTag), EventStamp, ["tag1"], Tags, DefaultTag);
  }

  lemma GetIndexNameTwoTags()
    ensures GetIndexName("indexname-%s-%s-%y-%m", EventTime, ["tag1", "tag2"], Tags, DefaultTag)
         == "indexname-value1-value2-14-12"
  {
    TwoTagsNormalSpelling();
    TwoTagsResolvable();
    TwoTagsReading();
    AtEventTime(Spell(Normalised(TwoTags)), ["tag1", "tag2"]);
    SpelledIndexName(Normalised(TwoTags), EventStamp, ["tag1", "tag2"], Tags, DefaultTag);
  }

  lemma GetIndexNameThreeTags()
    ensures GetIndexName("indexname-%s-%s-%s-%y-%m", EventTime, ["tag1", "tag2", "tag3"], Tags, DefaultTag)
         == "indexname-value1-value2-none-14-12"
  {
    ThreeTagsNormalSpelling();
    ThreeTagsResolvable();
    ThreeTagsReading();
    AtEventTime(Spell(Normalised(ThreeTags)), ["tag1", "tag2", "tag3"]);
    SpelledIndexName(Normalised(ThreeTags), EventStamp, ["tag1", "tag2", "tag3"], Tags, DefaultTag);
  }

  // The template-management configurations of the integration tests.

  /** Managing a template with an empty template name is refused. */
  lemma TemplateEmptyName()
    ensures CheckTemplateConfig(Elasticsearch("test-%Y.%m.%d", true, "", true, "")) == Err(EmptyTemplateName)
  {
  }

  /** An index pattern that starts with a tag placeholder has no prefix to match templates on. */
  lemma TemplateInvalidIndexPattern()
    ensures CheckTemplateConfig(Elasticsearch("{{host}}-%Y.%m.%d", true, "telegraf", true, "")) == Err(NoIndexPrefix)
  {
    var e := Elasticsearch("{{host}}-%Y.%m.%d", true, "telegraf", true, "");
    assert OpensAt(e.indexName, 0);
    DynamicHeadRefused(e);
  }

  /** The static prefix of the integration tests' dated pattern. */
  lemma DatedPatternPrefix()
    ensures IndexPrefix("test-%Y.%m.%d") == "test-"
  {
    assert "test-%Y.%m.%d" == "test-" + "%Y.%m.%d";
    IndexPrefixAfterLiteral("test-", "%Y.%m.%d");
  }

  /** A dated index pattern with a literal head installs a template matching `test-*`. */
  lemma TemplateManaged()
    ensures CheckTemplateConfig(Elasticsearch("test-%Y.%m.%d", true, "telegraf", true, ""))
         == Ok(Install("telegraf", "test-*", true))
  {
    DatedPatternPrefix();
    assert "test-" + "*" == "test-*";
  }
}
