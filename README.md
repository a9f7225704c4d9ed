# OpenSearch output: index-name resolver

This project models, in Dafny, the pure core of the OpenSearch output plugin.
That core has two parts:

- the **index-name resolver**, which turns a configured index pattern such as
  `metrics-{{host}}-%Y.%m.%d` into the concrete index name of one event;
- the **template pre-checks**, which decide whether a managed index template
  can be installed for that pattern.

The resolver works in two passes:

1. `GetTagKeys` scans the pattern from left to right. It rewrites each
   `{{key}}` placeholder into a positional `%s` slot and lists the keys in
   the order they appear. It copies everything else, including the time
   directives.
2. `GetIndexName` first renders the event's UTC time once into six date
   strings (`DateStrings`). A left-to-right replacer (`ExpandTime`) then
   substitutes those strings for `%Y %y %m %d %H %V`. After that the slots are
   filled, in order, with the tag values of the listed keys (`FillSlots`). A
   tag the event does not carry takes the default tag value.

The rendered strings behave as follows:

- `%Y` is the year padded to four digits.
- `%y` is the year modulo 100, in two digits.
- `%m`, `%d` and `%H` are the month, day and hour, each in two digits.
- `%V` is the ISO 8601 week number (section 4.1.4 of ISO 8601:2004), in two
  digits. It is computed by integer calendar arithmetic in `Calendar`: weeks
  start on Monday, and week 1 is the week that holds the year's first
  Thursday.

An unrecognised `%X` is copied unchanged.

A one-pass reference reading, `ResolveDirect`, reads each placeholder of the
original pattern as its tag value and each directive as its rendered string.
`TwoPassResolution` proves that the two passes together agree with this
reading.

The template pre-checks are modelled by `CheckTemplateConfig`. When template
management is on:

- an empty template name is refused, and this is checked first;
- an index pattern whose static prefix is empty is refused. The static
  prefix is the text before the first `%` or `{{`.

Otherwise the template is installed with the match pattern `prefix*`.
`InstalledTemplateMatches` proves that this pattern matches every index name
the resolver can produce.

The tests' inputs and expected outputs are stated as lemmas in
`ResolverVectors`:

- the nine `GetTagKeys` cases;
- the ten `GetIndexName` cases at 2014-12-01 23:30 UTC, including week 49;
- the three template configurations.

Modules:

| file | module | contents |
|---|---|---|
| wrappers.dfy | Wrappers | `Option`, `Result` |
| decimal.dfy | Decimal | decimal digits, zero padding |
| calendar.dfy | Calendar | day numbers, weekdays, ISO week date |
| index_name.dfy | IndexName | `GetTagKeys`, `GetIndexName` and their properties |
| template_config.dfy | TemplateConfig | template pre-checks |
| pieces.dfy | PatternPieces | patterns built from pieces, used to state the vectors |
| test_strings.dfy | TestStrings | literal string joins used by the vectors |
| patterns.dfy | VectorPatterns | the test patterns as pieces |
| vectors.dfy | ResolverVectors | the test vectors |

## Model

| member | source | states |
|---|---|---|
| IndexName.GetTagKeys | plugins/outputs/opensearch/opensearch_test.go:114-171 | the normalised pattern is never longer than the pattern; GetTagKeysWithoutPlaceholders, GetTagKeysWithoutClose, GetTagKeysAfterLiteral, GetTagKeysPlaceholder, SlotsMatchTagKeys and SpelledTagKeys state what it returns |
| IndexName.GetTagKeysWithoutPlaceholders | plugins/outputs/opensearch/opensearch_test.go:124-147 | a pattern with no `{{` is returned unchanged with an empty key list, directives included |
| IndexName.GetTagKeysWithoutClose | plugins/outputs/opensearch/opensearch_test.go:114-171 | in a pattern with no `}}`, every `{{` is literal: the pattern comes back unchanged with no keys |
| IndexName.GetTagKeysAfterLiteral | plugins/outputs/opensearch/opensearch_test.go:124-160 | literal text without `{` is copied to the normalised pattern and adds no key |
| IndexName.GetTagKeysPlaceholder | plugins/outputs/opensearch/opensearch_test.go:148-160 | a `{{key}}` becomes exactly one `%s`, and `key` comes before the keys of the placeholders after it |
| IndexName.SlotsMatchTagKeys | plugins/outputs/opensearch/opensearch_test.go:148-160 | the normalised pattern has as many `%s` slots as there are keys |
| PatternPieces.SpelledTagKeys | plugins/outputs/opensearch/opensearch_test.go:148-160 | on a pattern made of pieces, GetTagKeys gives the pattern with each placeholder replaced by `%s` and the placeholder keys in left-to-right order |
| Decimal.Pad | plugins/outputs/opensearch/opensearch_test.go:192-226 | the padded rendering is all digits, denotes n, is at least `width` long, is exactly `width` long when n fits, and a longer rendering of a positive n has no leading zero |
| IndexName.RenderDate | plugins/outputs/opensearch/opensearch_test.go:173-233 | every date string of an instant is a non-empty run of digits; RenderedFields and RenderedIsoWeek state which values they denote and how wide they are |
| IndexName.RenderedFields | plugins/outputs/opensearch/opensearch_test.go:192-226 | `%Y` prints the year in at least four digits (exactly four below 10000); `%y` prints the year modulo 100 in two digits; `%m`, `%d`, `%H` print the month, day and hour in two digits |
| IndexName.RenderedIsoWeek | plugins/outputs/opensearch/opensearch_test.go:227-233 | `%V` prints two digits whose value, between 1 and 53, is the ISO week that holds the event's day |
| IndexName.DirectiveTextDigits | plugins/outputs/opensearch/opensearch_test.go:192-233 | every directive's text is a non-empty run of digits, so the time pass neither creates nor breaks a `%s` slot |
| Calendar.Week1Monday | plugins/outputs/opensearch/opensearch_test.go:227-233 | the Monday of ISO week 1 is the Monday of the week whose Thursday falls in the first seven days of January |
| Calendar.WeeksInYear | plugins/outputs/opensearch/opensearch_test.go:227-233 | an ISO year has 52 or 53 weeks, and its week-1 Mondays lie that many weeks apart |
| Calendar.DaysBeforeMonth | plugins/outputs/opensearch/opensearch_test.go:186 | January starts the year, each month starts where the one before it ends, and December ends with the year |
| Calendar.DayNumber | plugins/outputs/opensearch/opensearch_test.go:186 | the day count since 0001-01-01 lies between the first day of the instant's calendar year and the first day of the next; FirstDayNumber and NextDayNumber fix which day each date is |
| Calendar.FirstDayNumber | plugins/outputs/opensearch/opensearch_test.go:186 | 0001-01-01 is day 0 |
| Calendar.NextDayNumber | plugins/outputs/opensearch/opensearch_test.go:186 | the next day within a month, across a month's end or across the year's end has the next day number |
| Calendar.DaysBeforeNextYear | plugins/outputs/opensearch/opensearch_test.go:186 | consecutive New Year's days lie exactly a (leap) year's length apart |
| Calendar.IsoYearOfDay | plugins/outputs/opensearch/opensearch_test.go:227-233 | a day of calendar year y lies in ISO year y - 1, y or y + 1 |
| Calendar.WeekOfIsoYear | plugins/outputs/opensearch/opensearch_test.go:227-233 | the week number within an ISO year is between 1 and 53 and the day lies in that week |
| Calendar.WeekDateOfDay | plugins/outputs/opensearch/opensearch_test.go:227-233 | the ISO week date of a day: week between 1 and 53, and the day lies in that week of that ISO year |
| Calendar.IsoWeekDate | plugins/outputs/opensearch/opensearch_test.go:227-233 | the week date of an instant: week between 1 and 53, and the instant's day lies in it |
| Calendar.IsoWeekUnique | plugins/outputs/opensearch/opensearch_test.go:227-233 | a day lies in only one ISO week, so the week date computed is the only correct one |
| Calendar.OrdinalWeekAgrees | plugins/outputs/opensearch/opensearch_test.go:227-233 | the ordinal-date formula of ISO 8601, (day of year - weekday + 10) / 7, equals the whole weeks since the Monday of week 1 of the calendar year, plus one |
| IndexName.ExpandTime | plugins/outputs/opensearch/opensearch_test.go:173-233 | the time pass leaves a text without `%` unchanged; ExpandTimeAfterLiteral, ExpandTimeWithoutDirectives and SpelledIndexName state how it copies literal text and replaces directives |
| IndexName.ExpandTimeAfterLiteral | plugins/outputs/opensearch/opensearch_test.go:192-226 | literal text without `%` comes through the time pass unchanged, in place |
| IndexName.ExpandTimeWithoutDirectives | plugins/outputs/opensearch/opensearch_test.go:185-191 | a pattern with no directive comes through the time pass unchanged |
| IndexName.FillSlots | plugins/outputs/opensearch/opensearch_test.go:173-262 | the slot pass changes nothing when there are no keys or the text holds no `%`; its other properties are FillSlotsAfterLiteral, FillSlotsWithoutSlots, FillSlotsReadsListedTags and SpelledIndexName |
| IndexName.FillSlotsWithoutSlots | plugins/outputs/opensearch/opensearch_test.go:185-233 | a text with no `%s` comes through the slot pass unchanged, whatever the keys |
| IndexName.FillSlotsAfterLiteral | plugins/outputs/opensearch/opensearch_test.go:234-254 | literal text without `%` comes through the slot pass unchanged and uses no key |
| IndexName.FillSlotsReadsListedTags | plugins/outputs/opensearch/opensearch_test.go:234-247 | the slot pass depends on the tag map only through the values of the listed keys, not through the map's order or its other entries |
| IndexName.GetIndexName | plugins/outputs/opensearch/opensearch_test.go:173-262 | a pattern without `%` is its own index name; LiteralPatternUnchanged, WithoutTagKeysOnlyTimeMatters, OnlyListedTagsMatter, MissingTagResolvesToDefault and GetIndexNameResolvesPattern state the rest |
| IndexName.LiteralPatternUnchanged | plugins/outputs/opensearch/opensearch_test.go:185-191 | a pattern with neither directives nor slots is its own index name, whatever the time, keys and tags |
| IndexName.WithoutTagKeysOnlyTimeMatters | plugins/outputs/opensearch/opensearch_test.go:192-233 | with no tag keys the index name is the time expansion alone and does not depend on the tags |
| IndexName.OnlyListedTagsMatter | plugins/outputs/opensearch/opensearch_test.go:234-247 | two tag maps that agree on the listed keys give the same index name |
| IndexName.MissingTagResolvesToDefault | plugins/outputs/opensearch/opensearch_test.go:248-254 | a listed key missing from the tags resolves exactly as if the tag were present with the default value |
| IndexName.TwoPassResolution | plugins/outputs/opensearch/opensearch_test.go:234-254 | after GetTagKeys, the time pass and the slot pass together give the one-pass reading: each placeholder becomes its own tag value, in order, and each directive its date string |
| IndexName.GetIndexNameResolvesPattern | plugins/outputs/opensearch/opensearch_test.go:234-254 | GetIndexName on GetTagKeys' output equals the one-pass reading of the original pattern at the event's rendered time |
| PatternPieces.SpelledIndexName | plugins/outputs/opensearch/opensearch_test.go:185-254 | the two passes over a pattern of text, directives and slots read it piece by piece; slots beyond the last key stay `%s` |
| TemplateConfig.IndexPrefix | plugins/outputs/opensearch/opensearch_test.go:100-111 | the static prefix is a prefix of the pattern, holds no `%` and no `{{`, and ends at the first `%` or `{{` |
| TemplateConfig.IndexPrefixAfterLiteral | plugins/outputs/opensearch/opensearch_test.go:73-90 | literal text without `%` or `{` belongs to the static prefix |
| TemplateConfig.CheckTemplateConfig | plugins/outputs/opensearch/opensearch_test.go:43-112 | with management off there is nothing to do; with it on, the configuration is refused exactly when the template name or the static prefix is empty; the empty name is reported first; otherwise the template is installed as `prefix*` with the configured overwrite flag |
| TemplateConfig.DynamicHeadRefused | plugins/outputs/opensearch/opensearch_test.go:100-111 | a named template over a pattern that starts with a directive or a placeholder is refused for lack of a prefix |
| TemplateConfig.NormalisedKeepsPrefix | plugins/outputs/opensearch/opensearch_test.go:73-90 | GetTagKeys keeps the pattern's static prefix at the head of the normalised pattern |
| TemplateConfig.PrefixOfEveryIndexName | plugins/outputs/opensearch/opensearch_test.go:73-90 | every index name resolved from the pattern starts with its static prefix, whatever the time and tags |
| TemplateConfig.InstalledTemplateMatches | plugins/outputs/opensearch/opensearch_test.go:73-90 | the installed template's `prefix*` matches every index name of the configuration |
| ResolverVectors.EventDayNumber | plugins/outputs/opensearch/opensearch_test.go:186 | 2014-12-01 is day 735567 and a Monday |
| ResolverVectors.Week1Mondays | plugins/outputs/opensearch/opensearch_test.go:227-233 | week 1 of 2014 starts on 2013-12-30, and week 1 of 2015 on 2014-12-29 |
| ResolverVectors.EventTimeIsoWeek | plugins/outputs/opensearch/opensearch_test.go:227-233 | 2014-12-01 is in ISO week 49 of 2014 |
| ResolverVectors.EventStampIsEventTime | plugins/outputs/opensearch/opensearch_test.go:185-233 | at 2014-12-01 23:30 UTC the directives print 2014, 14, 12, 01, 23 and 49 |
| ResolverVectors.GetTagKeysPlain | plugins/outputs/opensearch/opensearch_test.go:125-127 | `indexname` → `indexname`, no keys |
| ResolverVectors.GetTagKeysYear | plugins/outputs/opensearch/opensearch_test.go:129-131 | `indexname-%Y` unchanged, no keys |
| ResolverVectors.GetTagKeysYearMonth | plugins/outputs/opensearch/opensearch_test.go:133-135 | `indexname-%Y-%m` unchanged, no keys |
| ResolverVectors.GetTagKeysYearMonthDay | plugins/outputs/opensearch/opensearch_test.go:137-139 | `indexname-%Y-%m-%d` unchanged, no keys |
| ResolverVectors.GetTagKeysYearMonthDayHour | plugins/outputs/opensearch/opensearch_test.go:141-143 | `indexname-%Y-%m-%d-%H` unchanged, no keys |
| ResolverVectors.GetTagKeysShortYearMonth | plugins/outputs/opensearch/opensearch_test.go:145-147 | `indexname-%y-%m` unchanged, no keys |
| ResolverVectors.GetTagKeysOneTag | plugins/outputs/opensearch/opensearch_test.go:149-151 | `indexname-{{tag1}}-%y-%m` → `indexname-%s-%y-%m`, keys `[tag1]` |
| ResolverVectors.GetTagKeysTwoTags | plugins/outputs/opensearch/opensearch_test.go:153-155 | two placeholders → two slots, keys `[tag1, tag2]` |
| ResolverVectors.GetTagKeysThreeTags | plugins/outputs/opensearch/opensearch_test.go:157-159 | three placeholders → three slots, keys `[tag1, tag2, tag3]` |
| ResolverVectors.GetIndexNamePlain | plugins/outputs/opensearch/opensearch_test.go:185-191 | `indexname` → `indexname` |
| ResolverVectors.GetIndexNameYear | plugins/outputs/opensearch/opensearch_test.go:192-198 | `indexname-%Y` → `indexname-2014` |
| ResolverVectors.GetIndexNameYearMonth | plugins/outputs/opensearch/opensearch_test.go:199-205 | `indexname-%Y-%m` → `indexname-2014-12` |
| ResolverVectors.GetIndexNameYearMonthDay | plugins/outputs/opensearch/opensearch_test.go:206-212 | `indexname-%Y-%m-%d` → `indexname-2014-12-01` |
| ResolverVectors.GetIndexNameYearMonthDayHour | plugins/outputs/opensearch/opensearch_test.go:213-219 | `indexname-%Y-%m-%d-%H` → `indexname-2014-12-01-23` |
| ResolverVectors.GetIndexNameShortYearMonth | plugins/outputs/opensearch/opensearch_test.go:220-226 | `indexname-%y-%m` → `indexname-14-12` |
| ResolverVectors.GetIndexNameYearWeek | plugins/outputs/opensearch/opensearch_test.go:227-233 | `indexname-%Y-%V` → `indexname-2014-49` |
| ResolverVectors.GetIndexNameOneTag | plugins/outputs/opensearch/opensearch_test.go:234-240 | `indexname-%s-%y-%m` with key `tag1` → `indexname-value1-14-12` |
| ResolverVectors.GetIndexNameTwoTags | plugins/outputs/opensearch/opensearch_test.go:241-247 | two slots with keys `tag1, tag2` → `indexname-value1-value2-14-12` |
| ResolverVectors.GetIndexNameThreeTags | plugins/outputs/opensearch/opensearch_test.go:248-254 | the missing `tag3` takes the default: `indexname-value1-value2-none-14-12` |
| ResolverVectors.TemplateEmptyName | plugins/outputs/opensearch/opensearch_test.go:52-63 | a managed template with an empty name is refused |
| ResolverVectors.TemplateInvalidIndexPattern | plugins/outputs/opensearch/opensearch_test.go:100-111 | `{{host}}-%Y.%m.%d` is refused for lack of a static prefix |
| ResolverVectors.DatedPatternPrefix | plugins/outputs/opensearch/opensearch_test.go:75 | the static prefix of `test-%Y.%m.%d` is `test-` |
| ResolverVectors.TemplateManaged | plugins/outputs/opensearch/opensearch_test.go:73-90 | `test-%Y.%m.%d` with template `telegraf` is accepted and installs `test-*` |

## Left out

- Connecting, writing, bulk requests and their responses, health checks, version probing and gzip request headers are left out. They are network I/O against a cluster and background goroutines.
- Checking, creating and overwriting the remote template is left out, because these are HTTP calls. Only the pure pre-checks before them are modelled.
- Where the tests leave behaviour open, the model fixes it as follows:
  - a duplicate placeholder gets its own slot and its own key entry;
  - a `{{` with no later `}}` is literal text;
  - `%V` is zero-padded to two digits (the tested week, 49, has two digits anyway);
  - an unrecognised `%X` passes through unchanged.
- A slot beyond the last key stays `%s`, and keys after the last slot are unused. Go's `fmt.Sprintf` markers for missing or extra arguments (`%!s(MISSING)`, `%!(EXTRA …)`) and its `%%` escape are not modelled.
- Time zones are not modelled. The event time is taken in UTC, as every test does. Minutes and seconds are left out too, since no directive prints them.
- Negative years are not modelled. Year 0 is admitted and treated as the proleptic Gregorian year before year 1.
- IndexName.TwoPassResolution: requires that the pattern's own text holds no `%s`. A literal `%s` in a pattern would take a tag value in the slot pass, and the one-pass reading has no meaning for it.
- IndexName.SlotsMatchTagKeys: requires that the pattern's own text holds no `%s`, for the same reason.
- IndexName.GetIndexNameResolvesPattern: requires that the pattern's own text holds no `%s`, for the same reason.
