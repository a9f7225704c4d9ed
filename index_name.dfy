/**
 * The index-name resolver of the OpenSearch output plugin.
 *
 * A pattern such as `metrics-{{host}}-%Y.%m.%d` is resolved in two passes.
 * GetTagKeys rewrites every `{{key}}` placeholder into a positional `%s`
 * slot and lists the keys in the order they appear; GetIndexName then
 * expands the UTC time directives `%Y %y %m %d %H %V` and fills the slots,
 * in order, with the event's tag values, falling back to a default value for
 * a tag the event does not carry. Everything else in the pattern is literal.
 */
module IndexName {
  import opened Wrappers
  import opened Decimal
  import opened Calendar

  /** `{{` starts at position i of s. */
  predicate OpensAt(s: string, i: int) {
    0 <= i && i + 1 < |s| && s[i] == '{' && s[i + 1] == '{'
  }

  /** `}}` starts at position i of s. */
  predicate ClosesAt(s: string, i: int) {
    0 <= i && i + 1 < |s| && s[i] == '}' && s[i + 1] == '}'
  }

  /** The positional slot `%s` starts at position i of s. */
  predicate SlotAt(s: string, i: int) {
    0 <= i && i + 1 < |s| && s[i] == '%' && s[i + 1] == 's'
  }

  /** The directive characters: `%Y %y %m %d %H %V`. */
  predicate IsDirective(c: char) {
    c == 'Y' || c == 'y' || c == 'm' || c == 'd' || c == 'H' || c == 'V'
  }

  /** A recognised time directive starts at position i of s. */
  predicate DirectiveAt(s: string, i: int) {
    0 <= i && i + 1 < |s| && s[i] == '%' && IsDirective(s[i + 1])
  }

  /** The text a placeholder becomes in the normalised pattern. */
  const Slot: string := "%s"

  /** Position of the first `}}` at or after `from`, if any. */
  function FindClose(s: string, from: nat): (r: Option<nat>)
    ensures r.Some? ==> from <= r.value && ClosesAt(s, r.value)
    ensures r.Some? ==> forall k :: from <= k < r.value ==> !ClosesAt(s, k)
    ensures r.None? ==> forall k :: from <= k ==> !ClosesAt(s, k)
    decreases |s| - from
  {
    if from + 1 >= |s| then None
    else if ClosesAt(s, from) then Some(from)
    else FindClose(s, from + 1)
  }

  /**
   * When s starts with a complete placeholder `{{key}}`, the position of the
   * `}}` that ends it: the first `}}` after the opening `{{`.
   */
  function PlaceholderEnd(s: string): (r: Option<nat>)
    ensures r.Some? ==> OpensAt(s, 0) && 2 <= r.value && r.value + 2 <= |s| && ClosesAt(s, r.value)
  {
    if OpensAt(s, 0) then FindClose(s, 2) else None
  }

  /** The normalised pattern and the tag keys, in order of appearance. */
  datatype TagKeys = TagKeys(indexName: string, tagKeys: seq<string>)

  /**
   * Scans the pattern left to right: each complete `{{key}}` becomes one `%s`
   * slot and contributes `key` to the list; every other character, `%`
   * directives included, is copied. A `{{` with no `}}` after it is literal.
   */
  function GetTagKeys(p: string): (r: TagKeys)
    ensures |r.indexName| <= |p|
    decreases |p|
  {
    if p == [] then TagKeys([], [])
    else match PlaceholderEnd(p)
      case Some(j) =>
        var rest := GetTagKeys(p[j + 2..]);
        TagKeys(Slot + rest.indexName, [p[2..j]] + rest.tagKeys)
      case None =>
        var rest := GetTagKeys(p[1..]);
        TagKeys([p[0]] + rest.indexName, rest.tagKeys)
  }

  /**
   * The strings the date replacer substitutes, rendered once per event from
   * its UTC time: `%Y %y %m %d %H %V` in that order.
   */
  datatype DateStrings = DateStrings(year: string, shortYear: string, month: string,
                                     day: string, hour: string, isoWeek: string)

  /** The rendered text of a directive character; any other `%X` is left as it is. */
  function DirectiveText(d: DateStrings, c: char): (r: string) {
    match c
    case 'Y' => d.year
    case 'y' => d.shortYear
    case 'm' => d.month
    case 'd' => d.day
    case 'H' => d.hour
    case 'V' => d.isoWeek
    case _ => ['%', c]
  }

  /** Every rendered string is a non-empty run of decimal digits. */
  predicate DigitsOnly(d: DateStrings) {
    && d.year != [] && AllDigits(d.year) && d.shortYear != [] && AllDigits(d.shortYear)
    && d.month != [] && AllDigits(d.month) && d.day != [] && AllDigits(d.day)
    && d.hour != [] && AllDigits(d.hour) && d.isoWeek != [] && AllDigits(d.isoWeek)
  }

  /**
   * The date strings of an instant, zero-padded: the year to four digits,
   * the rest to two, the ISO week being the week of the ISO week-numbering
   * year that holds the instant's day.
   */
  function RenderDate(t: UtcTime): (r: DateStrings)
    ensures DigitsOnly(r)
  {
    DateStrings(Pad(t.year, 4), Pad(t.year % 100, 2), Pad(t.month, 2),
                Pad(t.day, 2), Pad(t.hour, 2), Pad(IsoWeekDate(t).week, 2))
  }

  /** `%Y`, `%y`, `%m`, `%d` and `%H` print the year, its last two digits, the month, the day and the hour. */
  lemma RenderedFields(t: UtcTime)
    ensures var r := RenderDate(t);
      && Value(r.year) == t.year && |r.year| >= 4 && (t.year < 10000 ==> |r.year| == 4)
      && Value(r.shortYear) == t.year % 100 && |r.shortYear| == 2
      && Value(r.month) == t.month && |r.month| == 2
      && Value(r.day) == t.day && |r.day| == 2
      && Value(r.hour) == t.hour && |r.hour| == 2
  {
  }

  /** `%V` prints, in two digits, the number of the ISO week that holds the instant's day. */
  lemma RenderedIsoWeek(t: UtcTime)
    ensures var r := RenderDate(t);
      && |r.isoWeek| == 2 && 1 <= Value(r.isoWeek) <= 53
      && InIsoWeek(DayNumber(t), IsoWeekDate(t).isoYear, Value(r.isoWeek))
  {
  }

  /** A directive's text is digits, and so holds neither `%` nor `s`. */
  lemma DirectiveTextDigits(d: DateStrings, c: char)
    requires DigitsOnly(d) && IsDirective(c)
    ensures DirectiveText(d, c) != [] && AllDigits(DirectiveText(d, c))
    ensures '%' !in DirectiveText(d, c) && DirectiveText(d, c)[0] != 's'
  {
    var x := DirectiveText(d, c);
    forall i | 0 <= i < |x| ensures x[i] != '%' {
      assert IsDigit(x[i]);
    }
    assert IsDigit(x[0]);
  }

  /**
   * First pass of GetIndexName, the date replacer: replaces each recognised
   * time directive with its rendered string, scanning left to right; an
   * unrecognised `%X` is copied unchanged.
   */
  function ExpandTime(s: string, d: DateStrings): (r: string)
    ensures '%' !in s ==> r == s
    decreases |s|
  {
    if s == [] then []
    else
      AbsentFromTail(s, '%');
      if DirectiveAt(s, 0) then DirectiveText(d, s[1]) + ExpandTime(s[2..], d)
    else [s[0]] + ExpandTime(s[1..], d)
  }

  /** The value a tag key stands for: the event's tag, or the default. */
  function TagValue(tags: map<string, string>, key: string, defaultTagValue: string): (r: string) {
    if key in tags then tags[key] else defaultTagValue
  }

  /**
   * Second pass of GetIndexName: fills the `%s` slots left to right with the
   * values of `tagKeys` in order. Slots beyond the last key stay as they are.
   */
  function FillSlots(s: string, tagKeys: seq<string>, tags: map<string, string>, defaultTagValue: string): (r: string)
    ensures tagKeys == [] ==> r == s
    ensures '%' !in s ==> r == s
    decreases |s|
  {
    if s == [] then []
    else
      AbsentFromTail(s, '%');
      if tagKeys != [] && SlotAt(s, 0) then
      TagValue(tags, tagKeys[0], defaultTagValue) + FillSlots(s[2..], tagKeys[1..], tags, defaultTagValue)
    else [s[0]] + FillSlots(s[1..], tagKeys, tags, defaultTagValue)
  }

  /** The concrete index name of one event: time directives first, then tag slots. */
  function GetIndexName(indexName: string, eventTime: UtcTime, tagKeys: seq<string>,
                        tags: map<string, string>, defaultTagValue: string): (r: string)
    ensures '%' !in indexName ==> r == indexName
  {
    FillSlots(ExpandTime(indexName, RenderDate(eventTime)), tagKeys, tags, defaultTagValue)
  }

  /**
   * Reference reading of a pattern in one pass: each `{{key}}` stands for
   * the key's tag value, each time directive for its value, every other
   * character for itself.
   */
  function ResolveDirect(p: string, d: DateStrings, tags: map<string, string>, defaultTagValue: string): (r: string)
    decreases |p|
  {
    if p == [] then []
    else match PlaceholderEnd(p)
      case Some(j) => TagValue(tags, p[2..j], defaultTagValue) + ResolveDirect(p[j + 2..], d, tags, defaultTagValue)
      case None =>
        if DirectiveAt(p, 0) then DirectiveText(d, p[1]) + ResolveDirect(p[2..], d, tags, defaultTagValue)
        else [p[0]] + ResolveDirect(p[1..], d, tags, defaultTagValue)
  }

  // ---------------------------------------------------------------------
  // Properties of GetTagKeys

  /** A character absent from a text is absent from its tail. */
  lemma AbsentFromTail(a: string, c: char)
    requires a != []
    ensures c !in a ==> a[0] != c && c !in a[1..]
  {
    if c !in a {
      assert a[0] in a;
      forall i | 0 <= i < |a[1..]| ensures a[1..][i] != c {
        assert a[1..][i] == a[i + 1];
      }
    }
  }

  /** Without any `{{`, GetTagKeys returns the pattern unchanged and no keys. */
  lemma {:induction false} GetTagKeysWithoutPlaceholders(p: string)
    requires forall i :: !OpensAt(p, i)
    ensures GetTagKeys(p) == TagKeys(p, [])
    decreases |p|
  {
    if p != [] {
      assert !OpensAt(p, 0);
      forall i ensures !OpensAt(p[1..], i) {
        assert OpensAt(p[1..], i) ==> OpensAt(p, i + 1);
      }
      GetTagKeysWithoutPlaceholders(p[1..]);
      assert [p[0]] + p[1..] == p;
    }
  }

  /**
   * Without any `}}`, no `{{` is closed: each one is literal text, and
   * GetTagKeys returns the pattern unchanged and no keys.
   */
  lemma {:induction false} GetTagKeysWithoutClose(p: string)
    requires forall k :: !ClosesAt(p, k)
    ensures GetTagKeys(p) == TagKeys(p, [])
    decreases |p|
  {
    if p != [] {
      assert PlaceholderEnd(p).None?;
      forall k ensures !ClosesAt(p[1..], k) {
        assert ClosesAt(p[1..], k) ==> ClosesAt(p, k + 1);
      }
      GetTagKeysWithoutClose(p[1..]);
      assert [p[0]] + p[1..] == p;
    }
  }

  /** Literal text without `{` is copied through by GetTagKeys and adds no key. */
  lemma {:induction false} GetTagKeysAfterLiteral(a: string, s: string)
    requires '{' !in a
    ensures GetTagKeys(a + s) == TagKeys(a + GetTagKeys(s).indexName, GetTagKeys(s).tagKeys)
    decreases |a|
  {
    if a == [] {
      assert a + s == s;
    } else {
      var x := a + s;
      AbsentFromTail(a, '{');
      assert x[0] == a[0] && x[1..] == a[1..] + s;
      GetTagKeysCopiedHead(x);
      GetTagKeysAfterLiteral(a[1..], s);
      var r := GetTagKeys(s).indexName;
      assert GetTagKeys(x).indexName == [a[0]] + (a[1..] + r);
      assert [a[0]] + (a[1..] + r) == a + r;
    }
  }

  /** A character that does not open a placeholder is copied by GetTagKeys. */
  lemma GetTagKeysCopiedHead(x: string)
    requires x != [] && !OpensAt(x, 0)
    ensures GetTagKeys(x) == TagKeys([x[0]] + GetTagKeys(x[1..]).indexName, GetTagKeys(x[1..]).tagKeys)
  {
  }

  /**
   * A placeholder `{{key}}` whose key has no `}` becomes one slot and puts
   * its key at the head of the keys that follow.
   */
  lemma GetTagKeysPlaceholder(key: string, s: string)
    requires '}' !in key
    ensures var rest := GetTagKeys(s);
      GetTagKeys("{{" + key + "}}" + s) == TagKeys(Slot + rest.indexName, [key] + rest.tagKeys)
  {
    var x := "{{" + key + "}}" + s;
    var e := |key| + 2;
    assert OpensAt(x, 0);
    assert ClosesAt(x, e);
    forall k | 2 <= k < e ensures !ClosesAt(x, k) {
      assert x[k] == key[k - 2];
      assert key[k - 2] in key;
    }
    assert PlaceholderEnd(x) == Some(e);
    assert x[2..e] == key;
    assert x[e + 2..] == s;
  }

  /** The first character of a normalised pattern: `%` for a slot, else the pattern's own. */
  lemma NormalisedHead(q: string)
    requires q != []
    ensures GetTagKeys(q).indexName != []
    ensures GetTagKeys(q).indexName[0] == if PlaceholderEnd(q).Some? then '%' else q[0]
  {
  }

  /** Counts `%s` slots, scanning left to right as FillSlots does. */
  function CountSlots(s: string): nat
    decreases |s|
  {
    if |s| < 2 then 0
    else if SlotAt(s, 0) then 1 + CountSlots(s[2..])
    else CountSlots(s[1..])
  }

  /** No `%s` occurs in the pattern's own text. */
  predicate NoLiteralSlot(p: string) {
    forall i :: 0 <= i < |p| ==> !SlotAt(p, i)
  }

  lemma NoLiteralSlotSuffix(p: string, k: nat)
    requires NoLiteralSlot(p) && k <= |p|
    ensures NoLiteralSlot(p[k..])
  {
    forall i | 0 <= i < |p[k..]| ensures !SlotAt(p[k..], i) {
      assert SlotAt(p[k..], i) ==> SlotAt(p, i + k);
    }
  }

  /**
   * Each placeholder leaves exactly one slot: in a pattern whose own text
   * has no `%s`, the normalised pattern has as many slots as there are keys.
   */
  lemma {:induction false} SlotsMatchTagKeys(p: string)
    requires NoLiteralSlot(p)
    ensures CountSlots(GetTagKeys(p).indexName) == |GetTagKeys(p).tagKeys|
    decreases |p|
  {
    if p != [] {
      match PlaceholderEnd(p)
      case Some(j) =>
        var rest := GetTagKeys(p[j + 2..]);
        NoLiteralSlotSuffix(p, j + 2);
        SlotsMatchTagKeys(p[j + 2..]);
        assert (Slot + rest.indexName)[2..] == rest.indexName;
      case None =>
        var rest := GetTagKeys(p[1..]);
        NoLiteralSlotSuffix(p, 1);
        SlotsMatchTagKeys(p[1..]);
        var s := [p[0]] + rest.indexName;
        assert s[1..] == rest.indexName;
        if |s| >= 2 {
          NormalisedHead(p[1..]);
          assert !SlotAt(p, 0);
          assert !SlotAt(s, 0);
        }
    }
  }

  // ---------------------------------------------------------------------
  // Properties of ExpandTime and FillSlots

  /** Literal text without `%` comes through the time pass unchanged. */
  lemma {:induction false} ExpandTimeAfterLiteral(a: string, s: string, d: DateStrings)
    requires '%' !in a
    ensures ExpandTime(a + s, d) == a + ExpandTime(s, d)
    decreases |a|
  {
    if a != [] {
      var x := a + s;
      AbsentFromTail(a, '%');
      assert x[0] == a[0] && x[1..] == a[1..] + s;
      ExpandTimeCopiedHead(x, d);
      ExpandTimeAfterLiteral(a[1..], s, d);
      assert a == [a[0]] + a[1..];
    } else {
      assert a + s == s;
    }
  }

  /** A character that does not start a directive is copied by the time pass. */
  lemma ExpandTimeCopiedHead(x: string, d: DateStrings)
    requires x != [] && !DirectiveAt(x, 0)
    ensures ExpandTime(x, d) == [x[0]] + ExpandTime(x[1..], d)
  {
  }

  /** Literal text without `%` comes through the slot pass unchanged. */
  lemma {:induction false} FillSlotsAfterLiteral(a: string, s: string, tagKeys: seq<string>,
                                                 tags: map<string, string>, defaultTagValue: string)
    requires '%' !in a
    ensures FillSlots(a + s, tagKeys, tags, defaultTagValue) == a + FillSlots(s, tagKeys, tags, defaultTagValue)
    decreases |a|
  {
    if a != [] {
      var x := a + s;
      AbsentFromTail(a, '%');
      assert x[0] == a[0] && x[1..] == a[1..] + s;
      FillSlotsCopiedHead(x, tagKeys, tags, defaultTagValue);
      FillSlotsAfterLiteral(a[1..], s, tagKeys, tags, defaultTagValue);
      assert a == [a[0]] + a[1..];
    } else {
      assert a + s == s;
    }
  }

  /** A character that does not start a slot is copied by the slot pass. */
  lemma FillSlotsCopiedHead(x: string, tagKeys: seq<string>, tags: map<string, string>, defaultTagValue: string)
    requires x != [] && !SlotAt(x, 0)
    ensures FillSlots(x, tagKeys, tags, defaultTagValue) == [x[0]] + FillSlots(x[1..], tagKeys, tags, defaultTagValue)
  {
  }

  /** A pattern without directives comes through the time pass unchanged. */
  lemma {:induction false} ExpandTimeWithoutDirectives(s: string, d: DateStrings)
    requires forall i :: !DirectiveAt(s, i)
    ensures ExpandTime(s, d) == s
    decreases |s|
  {
    if s != [] {
      assert !DirectiveAt(s, 0);
      forall i ensures !DirectiveAt(s[1..], i) {
        assert DirectiveAt(s[1..], i) ==> DirectiveAt(s, i + 1);
      }
      ExpandTimeWithoutDirectives(s[1..], d);
    }
  }

  /** A text without slots comes through the slot pass unchanged, whatever the keys. */
  lemma {:induction false} FillSlotsWithoutSlots(s: string, tagKeys: seq<string>,
                                                 tags: map<string, string>, defaultTagValue: string)
    requires NoLiteralSlot(s)
    ensures FillSlots(s, tagKeys, tags, defaultTagValue) == s
    decreases |s|
  {
    if s != [] {
      assert !SlotAt(s, 0);
      NoLiteralSlotSuffix(s, 1);
      FillSlotsWithoutSlots(s[1..], tagKeys, tags, defaultTagValue);
    }
  }

  /** The slot pass reads the tag map only through the values of the listed keys. */
  lemma {:induction false} FillSlotsReadsListedTags(s: string, tagKeys: seq<string>,
                                                    tags1: map<string, string>, tags2: map<string, string>,
                                                    defaultTagValue: string)
    requires forall i :: 0 <= i < |tagKeys| ==>
      TagValue(tags1, tagKeys[i], defaultTagValue) == TagValue(tags2, tagKeys[i], defaultTagValue)
    ensures FillSlots(s, tagKeys, tags1, defaultTagValue) == FillSlots(s, tagKeys, tags2, defaultTagValue)
    decreases |s|
  {
    if s != [] {
      if tagKeys != [] && SlotAt(s, 0) {
        assert TagValue(tags1, tagKeys[0], defaultTagValue) == TagValue(tags2, tagKeys[0], defaultTagValue);
        forall i | 0 <= i < |tagKeys[1..]|
          ensures TagValue(tags1, tagKeys[1..][i], defaultTagValue) == TagValue(tags2, tagKeys[1..][i], defaultTagValue)
        {
          assert tagKeys[1..][i] == tagKeys[i + 1];
        }
        FillSlotsReadsListedTags(s[2..], tagKeys[1..], tags1, tags2, defaultTagValue);
      } else {
        FillSlotsReadsListedTags(s[1..], tagKeys, tags1, tags2, defaultTagValue);
      }
    }
  }

  // ---------------------------------------------------------------------
  // Properties of GetIndexName

  /** A pattern with neither directives nor slots is its own index name, whatever the tags. */
  lemma LiteralPatternUnchanged(p: string, t: UtcTime, tagKeys: seq<string>,
                                tags: map<string, string>, defaultTagValue: string)
    requires forall i :: !DirectiveAt(p, i)
    requires NoLiteralSlot(p)
    ensures GetIndexName(p, t, tagKeys, tags, defaultTagValue) == p
  {
    ExpandTimeWithoutDirectives(p, RenderDate(t));
    FillSlotsWithoutSlots(p, tagKeys, tags, defaultTagValue);
  }

  /**
   * With an empty key list the slot pass is skipped: the index name is the
   * time expansion alone, and so does not depend on the tags.
   */
  lemma WithoutTagKeysOnlyTimeMatters(p: string, t: UtcTime, tags1: map<string, string>,
                                      tags2: map<string, string>, defaultTagValue: string)
    ensures GetIndexName(p, t, [], tags1, defaultTagValue) == ExpandTime(p, RenderDate(t))
    ensures GetIndexName(p, t, [], tags1, defaultTagValue) == GetIndexName(p, t, [], tags2, defaultTagValue)
  {
  }

  /** Tags not named in the key list have no effect on the index name. */
  lemma OnlyListedTagsMatter(p: string, t: UtcTime, tagKeys: seq<string>,
                             tags1: map<string, string>, tags2: map<string, string>, defaultTagValue: string)
    requires forall i :: 0 <= i < |tagKeys| ==> (tagKeys[i] in tags1 <==> tagKeys[i] in tags2)
    requires forall i :: 0 <= i < |tagKeys| && tagKeys[i] in tags1 ==> tags1[tagKeys[i]] == tags2[tagKeys[i]]
    ensures GetIndexName(p, t, tagKeys, tags1, defaultTagValue) == GetIndexName(p, t, tagKeys, tags2, defaultTagValue)
  {
    FillSlotsReadsListedTags(ExpandTime(p, RenderDate(t)), tagKeys, tags1, tags2, defaultTagValue);
  }

  /**
   * A tag the event lacks resolves exactly as if the event carried it with
   * the default value: resolution never fails on a missing tag.
   */
  lemma MissingTagResolvesToDefault(p: string, t: UtcTime, tagKeys: seq<string>,
                                    tags: map<string, string>, defaultTagValue: string, key: string)
    requires key !in tags
    ensures GetIndexName(p, t, tagKeys, tags, defaultTagValue)
         == GetIndexName(p, t, tagKeys, tags[key := defaultTagValue], defaultTagValue)
  {
    FillSlotsReadsListedTags(ExpandTime(p, RenderDate(t)), tagKeys, tags, tags[key := defaultTagValue], defaultTagValue);
  }

  // ---------------------------------------------------------------------
  // The two passes together read the pattern as the one-pass reference does

  lemma ExpandTimeSlot(s: string, d: DateStrings)
    ensures ExpandTime(Slot + s, d) == Slot + ExpandTime(s, d)
  {
    var x := Slot + s;
    assert x[1..] == ['s'] + s;
    assert x[1..][1..] == s;
    ExpandTimeCopiedHead(x, d);
    ExpandTimeCopiedHead(x[1..], d);
  }

  /** A recognised directive is replaced by its rendered string. */
  lemma ExpandTimeDirective(c: char, s: string, d: DateStrings)
    requires IsDirective(c)
    ensures ExpandTime(['%', c] + s, d) == DirectiveText(d, c) + ExpandTime(s, d)
  {
    var x := ['%', c] + s;
    assert DirectiveAt(x, 0) && x[1] == c && x[2..] == s;
  }

  lemma FillSlotsSlot(s: string, key: string, tagKeys: seq<string>,
                      tags: map<string, string>, defaultTagValue: string)
    ensures FillSlots(Slot + s, [key] + tagKeys, tags, defaultTagValue)
         == TagValue(tags, key, defaultTagValue) + FillSlots(s, tagKeys, tags, defaultTagValue)
  {
    assert (Slot + s)[2..] == s;
    assert ([key] + tagKeys)[1..] == tagKeys;
  }

  /** A directive at the head of the pattern is copied by GetTagKeys as its two characters. */
  lemma NormalisedDirective(p: string)
    requires DirectiveAt(p, 0)
    ensures GetTagKeys(p).indexName == p[..2] + GetTagKeys(p[2..]).indexName
    ensures GetTagKeys(p).tagKeys == GetTagKeys(p[2..]).tagKeys
  {
    assert PlaceholderEnd(p).None?;
    assert PlaceholderEnd(p[1..]).None?;
    assert p[1..][1..] == p[2..];
    assert p[..2] == [p[0], p[1]];
  }

  /** The expanded normalised form of a pattern not starting with `s` does not start with `s`. */
  lemma ExpandedHead(q: string, d: DateStrings)
    requires DigitsOnly(d)
    requires q != [] && q[0] != 's'
    ensures ExpandTime(GetTagKeys(q).indexName, d) != []
    ensures ExpandTime(GetTagKeys(q).indexName, d)[0] != 's'
  {
    match PlaceholderEnd(q)
    case Some(j) =>
      ExpandTimeSlot(GetTagKeys(q[j + 2..]).indexName, d);
    case None =>
      var n := GetTagKeys(q).indexName;
      if DirectiveAt(q, 0) {
        NormalisedDirective(q);
        assert n[..2] == q[..2];
        assert n == ['%', q[1]] + n[2..];
        ExpandTimeDirective(q[1], n[2..], d);
        DirectiveTextDigits(d, q[1]);
      } else {
        assert n[0] == q[0];
        if q[0] == '%' && |n| >= 2 {
          NormalisedHead(q[1..]);
          assert n[1..] == GetTagKeys(q[1..]).indexName;
          assert !DirectiveAt(n, 0);
        }
        ExpandTimeCopiedHead(n, d);
      }
  }

  /** Both readings agree on a pattern, with the extra keys `extra` after its own. */
  ghost predicate TwoPassAgrees(p: string, d: DateStrings, extra: seq<string>,
                                tags: map<string, string>, defaultTagValue: string)
  {
    var n := GetTagKeys(p);
    FillSlots(ExpandTime(n.indexName, d), n.tagKeys + extra, tags, defaultTagValue)
      == ResolveDirect(p, d, tags, defaultTagValue)
  }

  /** Both readings of a pattern that starts with a placeholder, one step unfolded. */
  lemma PlaceholderHead(p: string, j: nat, d: DateStrings, tags: map<string, string>, defaultTagValue: string)
    requires p != [] && PlaceholderEnd(p) == Some(j)
    ensures var rest := GetTagKeys(p[j + 2..]);
      GetTagKeys(p) == TagKeys(Slot + rest.indexName, [p[2..j]] + rest.tagKeys)
    ensures ResolveDirect(p, d, tags, defaultTagValue)
         == TagValue(tags, p[2..j], defaultTagValue) + ResolveDirect(p[j + 2..], d, tags, defaultTagValue)
  {
  }

  /** Inductive step for a pattern that starts with a placeholder. */
  lemma TwoPassPlaceholderStep(p: string, j: nat, d: DateStrings, extra: seq<string>,
                               tags: map<string, string>, defaultTagValue: string)
    requires p != [] && PlaceholderEnd(p) == Some(j)
    requires TwoPassAgrees(p[j + 2..], d, extra, tags, defaultTagValue)
    ensures TwoPassAgrees(p, d, extra, tags, defaultTagValue)
  {
    var key := p[2..j];
    var rest := GetTagKeys(p[j + 2..]);
    PlaceholderHead(p, j, d, tags, defaultTagValue);
    var keys := rest.tagKeys + extra;
    assert GetTagKeys(p).tagKeys + extra == [key] + keys;
    ExpandTimeSlot(rest.indexName, d);
    FillSlotsSlot(ExpandTime(rest.indexName, d), key, keys, tags, defaultTagValue);
  }

  /** Inductive step for a pattern that starts with a time directive. */
  lemma TwoPassDirectiveStep(p: string, d: DateStrings, extra: seq<string>,
                             tags: map<string, string>, defaultTagValue: string)
    requires DigitsOnly(d)
    requires DirectiveAt(p, 0)
    requires TwoPassAgrees(p[2..], d, extra, tags, defaultTagValue)
    ensures TwoPassAgrees(p, d, extra, tags, defaultTagValue)
  {
    var n := GetTagKeys(p);
    var rest := GetTagKeys(p[2..]);
    NormalisedDirective(p);
    var x := p[..2] + rest.indexName;
    assert x == n.indexName;
    assert x == ['%', p[1]] + rest.indexName;
    ExpandTimeDirective(p[1], rest.indexName, d);
    DirectiveTextDigits(d, p[1]);
    FillSlotsAfterLiteral(DirectiveText(d, p[1]), ExpandTime(rest.indexName, d), n.tagKeys + extra, tags, defaultTagValue);
    assert PlaceholderEnd(p).None?;
  }

  /** Inductive step for a pattern that starts with a literal character. */
  lemma TwoPassLiteralStep(p: string, d: DateStrings, extra: seq<string>,
                           tags: map<string, string>, defaultTagValue: string)
    requires DigitsOnly(d)
    requires p != [] && PlaceholderEnd(p).None? && !DirectiveAt(p, 0)
    requires NoLiteralSlot(p)
    requires TwoPassAgrees(p[1..], d, extra, tags, defaultTagValue)
    ensures TwoPassAgrees(p, d, extra, tags, defaultTagValue)
  {
    var n := GetTagKeys(p);
    var rest := GetTagKeys(p[1..]);
    var x := [p[0]] + rest.indexName;
    assert x == n.indexName;
    assert x[1..] == rest.indexName;
    if x[0] == '%' && |x| >= 2 {
      NormalisedHead(p[1..]);
      assert !DirectiveAt(x, 0);
    }
    var e := ExpandTime(rest.indexName, d);
    ExpandTimeCopiedHead(x, d);
    if p[0] == '%' && e != [] {
      assert |p| >= 2;
      assert !SlotAt(p, 0);
      ExpandedHead(p[1..], d);
      assert !SlotAt([p[0]] + e, 0);
    }
    assert ([p[0]] + e)[1..] == e;
  }

  /**
   * For a pattern whose own text has no `%s`, normalising it with GetTagKeys
   * and running both passes over the result gives the one-pass reading: each
   * slot receives the value of the placeholder it replaced, in order, and
   * keys left over after the last slot are ignored.
   */
  lemma {:induction false} TwoPassResolution(p: string, d: DateStrings, extra: seq<string>,
                                             tags: map<string, string>, defaultTagValue: string)
    requires DigitsOnly(d)
    requires NoLiteralSlot(p)
    ensures var n := GetTagKeys(p);
      FillSlots(ExpandTime(n.indexName, d), n.tagKeys + extra, tags, defaultTagValue)
        == ResolveDirect(p, d, tags, defaultTagValue)
    decreases |p|
  {
    if p != [] {
      match PlaceholderEnd(p)
      case Some(j) =>
        NoLiteralSlotSuffix(p, j + 2);
        TwoPassResolution(p[j + 2..], d, extra, tags, defaultTagValue);
        TwoPassPlaceholderStep(p, j, d, extra, tags, defaultTagValue);
      case None =>
        if DirectiveAt(p, 0) {
          NoLiteralSlotSuffix(p, 2);
          TwoPassResolution(p[2..], d, extra, tags, defaultTagValue);
          TwoPassDirectiveStep(p, d, extra, tags, defaultTagValue);
        } else {
          NoLiteralSlotSuffix(p, 1);
          TwoPassResolution(p[1..], d, extra, tags, defaultTagValue);
          TwoPassLiteralStep(p, d, extra, tags, defaultTagValue);
        }
    }
  }

  /**
   * GetIndexName applied to what GetTagKeys made of a pattern resolves each
   * placeholder to its tag value and each directive to the event time's
   * rendered string, as the one-pass reading does.
   */
  lemma GetIndexNameResolvesPattern(p: string, t: UtcTime, tags: map<string, string>, defaultTagValue: string)
    requires NoLiteralSlot(p)
    ensures var n := GetTagKeys(p);
      GetIndexName(n.indexName, t, n.tagKeys, tags, defaultTagValue)
        == ResolveDirect(p, RenderDate(t), tags, defaultTagValue)
  {
    TwoPassResolution(p, RenderDate(t), [], tags, defaultTagValue);
    assert GetTagKeys(p).tagKeys + [] == GetTagKeys(p).tagKeys;
  }
}
