/**
 * Patterns written as a list of pieces (literal text, time directives,
 * placeholders, slots), and what GetTagKeys and GetIndexName make of a
 * pattern spelled out from its pieces.
 */
module PatternPieces {
  import opened IndexName

  datatype Piece = Text(text: string) | Time(directive: char) | Placeholder(key: string) | SlotMark

  /** A pattern as a list of pieces. */
  datatype Pattern = End | Then(head: Piece, tail: Pattern)

  /** The pattern text of one piece. */
  function SpellOne(x: Piece): string {
    match x
    case Text(s) => s
    case Time(c) => ['%', c]
    case Placeholder(k) => "{{" + k + "}}"
    case SlotMark => Slot
  }

  /** The pattern text of a list of pieces. */
  function Spell(ps: Pattern): string {
    match ps
    case End => []
    case Then(x, rest) => SpellOne(x) + Spell(rest)
  }

  /** Each placeholder replaced by a slot. */
  function Normalised(ps: Pattern): Pattern {
    match ps
    case End => End
    case Then(x, rest) => Then(if x.Placeholder? then SlotMark else x, Normalised(rest))
  }

  /** The placeholder keys, in order. */
  function Keys(ps: Pattern): seq<string> {
    match ps
    case End => []
    case Then(x, rest) => (if x.Placeholder? then [x.key] else []) + Keys(rest)
  }

  /**
   * Each piece read on its own: directives replaced by their rendered
   * strings, slots filled with the tag values of the keys in order, then
   * left as they are.
   */
  function Resolved(ps: Pattern, d: DateStrings, tagKeys: seq<string>,
                    tags: map<string, string>, defaultTagValue: string): string
  {
    match ps
    case End => []
    case Then(Text(s), rest) => s + Resolved(rest, d, tagKeys, tags, defaultTagValue)
    case Then(Time(c), rest) => DirectiveText(d, c) + Resolved(rest, d, tagKeys, tags, defaultTagValue)
    case Then(Placeholder(k), rest) => "{{" + k + "}}" + Resolved(rest, d, tagKeys, tags, defaultTagValue)
    case Then(SlotMark, rest) =>
      if tagKeys != [] then
        TagValue(tags, tagKeys[0], defaultTagValue) + Resolved(rest, d, tagKeys[1..], tags, defaultTagValue)
      else Slot + Resolved(rest, d, tagKeys, tags, defaultTagValue)
  }

  /** Every piece's spelling is read by GetTagKeys as that piece. */
  predicate KeyScanned(ps: Pattern) {
    match ps
    case End => true
    case Then(Text(s), rest) => '{' !in s && KeyScanned(rest)
    case Then(Time(c), rest) => IsDirective(c) && KeyScanned(rest)
    case Then(Placeholder(k), rest) => '}' !in k && KeyScanned(rest)
    case Then(SlotMark, rest) => KeyScanned(rest)
  }

  /** Every piece's spelling is read by GetIndexName as that piece; no placeholders. */
  predicate NameResolved(ps: Pattern) {
    match ps
    case End => true
    case Then(Text(s), rest) => '%' !in s && NameResolved(rest)
    case Then(Time(c), rest) => IsDirective(c) && NameResolved(rest)
    case Then(Placeholder(_), _) => false
    case Then(SlotMark, rest) => NameResolved(rest)
  }

  /**
   * GetTagKeys on a spelled pattern gives the spelling of its normalised
   * pieces and the keys of its placeholders, in order.
   */
  lemma {:induction false} SpelledTagKeys(ps: Pattern)
    requires KeyScanned(ps)
    ensures GetTagKeys(Spell(ps)) == TagKeys(Spell(Normalised(ps)), Keys(ps))
  {
    match ps
    case End =>
    case Then(x, rest) =>
      SpelledTagKeys(rest);
      match x
      case Placeholder(k) =>
        GetTagKeysPlaceholder(k, Spell(rest));
      case Text(s) =>
        GetTagKeysAfterLiteral(s, Spell(rest));
      case Time(c) =>
        GetTagKeysAfterLiteral(['%', c], Spell(rest));
      case SlotMark =>
        GetTagKeysAfterLiteral(Slot, Spell(rest));
  }

  /** The two passes read the spelled pattern as Resolved reads its pieces. */
  ghost predicate ResolvesAsPieces(ps: Pattern, d: DateStrings, tagKeys: seq<string>,
                                   tags: map<string, string>, defaultTagValue: string)
  {
    FillSlots(ExpandTime(Spell(ps), d), tagKeys, tags, defaultTagValue) == Resolved(ps, d, tagKeys, tags, defaultTagValue)
  }

  lemma TextStep(s: string, rest: Pattern, d: DateStrings, tagKeys: seq<string>,
                 tags: map<string, string>, defaultTagValue: string)
    requires '%' !in s
    requires ResolvesAsPieces(rest, d, tagKeys, tags, defaultTagValue)
    ensures ResolvesAsPieces(Then(Text(s), rest), d, tagKeys, tags, defaultTagValue)
  {
    ExpandTimeAfterLiteral(s, Spell(rest), d);
    FillSlotsAfterLiteral(s, ExpandTime(Spell(rest), d), tagKeys, tags, defaultTagValue);
  }

  lemma TimeStep(c: char, rest: Pattern, d: DateStrings, tagKeys: seq<string>,
                 tags: map<string, string>, defaultTagValue: string)
    requires IsDirective(c) && DigitsOnly(d)
    requires ResolvesAsPieces(rest, d, tagKeys, tags, defaultTagValue)
    ensures ResolvesAsPieces(Then(Time(c), rest), d, tagKeys, tags, defaultTagValue)
  {
    ExpandTimeDirective(c, Spell(rest), d);
    DirectiveTextDigits(d, c);
    FillSlotsAfterLiteral(DirectiveText(d, c), ExpandTime(Spell(rest), d), tagKeys, tags, defaultTagValue);
  }

  lemma FilledSlotStep(rest: Pattern, d: DateStrings, tagKeys: seq<string>,
                       tags: map<string, string>, defaultTagValue: string)
    requires tagKeys != []
    requires ResolvesAsPieces(rest, d, tagKeys[1..], tags, defaultTagValue)
    ensures ResolvesAsPieces(Then(SlotMark, rest), d, tagKeys, tags, defaultTagValue)
  {
    ExpandTimeSlot(Spell(rest), d);
    assert [tagKeys[0]] + tagKeys[1..] == tagKeys;
    FillSlotsSlot(ExpandTime(Spell(rest), d), tagKeys[0], tagKeys[1..], tags, defaultTagValue);
  }

  lemma LeftoverSlotStep(rest: Pattern, d: DateStrings, tags: map<string, string>, defaultTagValue: string)
    requires ResolvesAsPieces(rest, d, [], tags, defaultTagValue)
    ensures ResolvesAsPieces(Then(SlotMark, rest), d, [], tags, defaultTagValue)
  {
    ExpandTimeSlot(Spell(rest), d);
  }

  /**
   * The two passes over a spelled pattern of literal text, directives and
   * slots read it piece by piece.
   */
  lemma {:induction false} SpelledIndexName(ps: Pattern, d: DateStrings, tagKeys: seq<string>,
                                            tags: map<string, string>, defaultTagValue: string)
    requires NameResolved(ps) && DigitsOnly(d)
    ensures FillSlots(ExpandTime(Spell(ps), d), tagKeys, tags, defaultTagValue)
         == Resolved(ps, d, tagKeys, tags, defaultTagValue)
  {
    match ps
    case End =>
    case Then(Text(s), rest) =>
      SpelledIndexName(rest, d, tagKeys, tags, defaultTagValue);
      TextStep(s, rest, d, tagKeys, tags, defaultTagValue);
    case Then(Time(c), rest) =>
      SpelledIndexName(rest, d, tagKeys, tags, defaultTagValue);
      TimeStep(c, rest, d, tagKeys, tags, defaultTagValue);
    case Then(SlotMark, rest) =>
      if tagKeys != [] {
        SpelledIndexName(rest, d, tagKeys[1..], tags, defaultTagValue);
        FilledSlotStep(rest, d, tagKeys, tags, defaultTagValue);
      } else {
        SpelledIndexName(rest, d, tagKeys, tags, defaultTagValue);
        LeftoverSlotStep(rest, d, tags, defaultTagValue);
      }
  }
}
