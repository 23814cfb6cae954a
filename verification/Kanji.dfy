/**
 * The kanji hierarchy as one immutable value type. The abstract groups of the
 * source become predicates over the eight kinds:
 *
 *   Loaded   (stores meaning and reading): Numbered and Other kinds
 *   Numbered (stores kyu and number):      Official kinds and Extra
 *   Official (stores level, frequency, year): Jouyou and Jinmei
 *   Linked   (delegates to an Official link): LinkedJinmei and LinkedOld
 *   Other    (old/new names from link names): Standard kinds and Ucd
 *   Standard (stores kyu):                 Frequency and Kentei
 *
 * Each getter gives what the most specific class on a kind's path defines and
 * otherwise the base class's default.
 */
module Kanji {
  import Wrappers
  import opened KanjiEnums

  /** The fields every kanji has. */
  datatype Fields = Fields(name: string, radical: string, strokes: int)

  /** Fields of the kinds whose meaning and reading are loaded from files. */
  datatype LoadedFields = LoadedFields(meaning: string, reading: string)

  /** Fields of the kinds that carry a kyu and a number from their own list. */
  datatype NumberedFields = NumberedFields(kyu: Kyu, number: int)

  /** Fields of the officially listed kinds. */
  datatype OfficialFields = OfficialFields(level: Level, frequency: int, year: int)

  /** Fields of the kinds whose old or new names come from a list of link names. */
  datatype OtherFields = OtherFields(oldLinks: bool, linkNames: seq<string>, linkedReadings: bool)

  /** Fields of a variant that points at the official kanji it is a form of. */
  datatype LinkedFields = LinkedFields(link: Kanji, frequency: int, kyu: Kyu)

  datatype Kanji =
    | JouyouKanji(fields: Fields, loaded: LoadedFields, numbered: NumberedFields, official: OfficialFields,
                  grade: Grade)
    | JinmeiKanji(fields: Fields, loaded: LoadedFields, numbered: NumberedFields, official: OfficialFields,
                  reason: JinmeiReason)
    | LinkedJinmeiKanji(fields: Fields, linked: LinkedFields)
    | LinkedOldKanji(fields: Fields, linked: LinkedFields)
    | ExtraKanji(fields: Fields, loaded: LoadedFields, numbered: NumberedFields, newName: Wrappers.Option<string>)
    | FrequencyKanji(fields: Fields, loaded: LoadedFields, other: OtherFields, kyu: Kyu, frequency: int)
    | KenteiKanji(fields: Fields, loaded: LoadedFields, other: OtherFields, kyu: Kyu)
    | UcdKanji(fields: Fields, loaded: LoadedFields, other: OtherFields)
  {
    // The abstract groups

    predicate IsLinked() {
      LinkedJinmeiKanji? || LinkedOldKanji?
    }

    predicate IsLoaded() {
      !IsLinked()
    }

    predicate IsOfficial() {
      JouyouKanji? || JinmeiKanji?
    }

    predicate IsNumbered() {
      IsOfficial() || ExtraKanji?
    }

    predicate IsStandard() {
      FrequencyKanji? || KenteiKanji?
    }

    predicate IsOther() {
      IsStandard() || UcdKanji?
    }

    /**
     * What the constructors of the eight kinds insist on: a Jouyou kanji has a
     * grade, a Jinmei kanji a reason and a year, an Extra kanji a positive
     * number (and a new name, when it has one, that is not empty), a Frequency
     * kanji a positive frequency, a Kentei kanji a kyu;
     * a LinkedJinmei kanji links to an Official kanji and a LinkedOld kanji
     * to a Jouyou kanji.
     */
    predicate Valid()
      decreases this
    {
      match this
      case JouyouKanji(_, _, _, _, grade) => grade != KanjiEnums.Grade.None
      case JinmeiKanji(_, _, _, official, reason) => reason != JinmeiReason.None && official.year != 0
      case LinkedJinmeiKanji(_, linked) => linked.link.IsOfficial() && linked.link.Valid()
      case LinkedOldKanji(_, linked) => linked.link.JouyouKanji? && linked.link.Valid()
      case ExtraKanji(_, _, numbered, newName) => numbered.number > 0 && newName != Wrappers.Some("")
      case FrequencyKanji(_, _, _, _, frequency) => frequency > 0
      case KenteiKanji(_, _, _, kyu) => kyu != KanjiEnums.Kyu.None
      case UcdKanji(_, _, _) => true
    }

    // Getters

    function Type(): KanjiType {
      match this
      case JouyouKanji(_, _, _, _, _) => Jouyou
      case JinmeiKanji(_, _, _, _, _) => Jinmei
      case LinkedJinmeiKanji(_, _) => LinkedJinmei
      case LinkedOldKanji(_, _) => LinkedOld
      case ExtraKanji(_, _, _, _) => Extra
      case FrequencyKanji(_, _, _, _, _) => KanjiType.Frequency
      case KenteiKanji(_, _, _, _) => Kentei
      case UcdKanji(_, _, _) => Ucd
    }

    function Name(): string {
      fields.name
    }

    function Radical(): string {
      fields.radical
    }

    function Strokes(): int {
      fields.strokes
    }

    /** A Loaded kind's own meaning; a Linked kind's link's meaning. */
    function Meaning(): string
      decreases this
    {
      if IsLinked() then linked.link.Meaning() else loaded.meaning
    }

    /** A Loaded kind's own reading; a Linked kind's link's reading. */
    function Reading(): string
      decreases this
    {
      if IsLinked() then linked.link.Reading() else loaded.reading
    }

    /** 1 for the most frequent kanji, 0 when not in the frequency list. */
    function Frequency(): int {
      if IsOfficial() then official.frequency
      else if IsLinked() then linked.frequency
      else if FrequencyKanji? then frequency
      else 0
    }

    /** The year an Official kanji was added to its list, else 0. */
    function Year(): int {
      if IsOfficial() then official.year else 0
    }

    /** Whether the readings came through a link. */
    function HasLinkedReading(): bool {
      if IsLinked() then true
      else if IsOther() then other.linkedReadings
      else false
    }

    /** An Other kind's link names when they are old forms, else none. */
    function OldNames(): seq<string> {
      if IsOther() && other.oldLinks then other.linkNames else []
    }

    /**
     * A Linked kind's link's name; an Extra kanji's own new name; for an
     * Other kind, the first link name when the links are not old forms.
     */
    function NewName(): Wrappers.Option<string> {
      if IsLinked() then Wrappers.Some(linked.link.Name())
      else if ExtraKanji? then newName
      else if IsOther() && other.linkNames != [] && !other.oldLinks then Wrappers.Some(other.linkNames[0])
      else Wrappers.None
    }

    function Grade(): Grade {
      if JouyouKanji? then grade else KanjiEnums.Grade.None
    }

    function Level(): Level {
      if IsOfficial() then official.level else KanjiEnums.Level.None
    }

    function Kyu(): Kyu {
      if IsNumbered() then numbered.kyu
      else if IsLinked() then linked.kyu
      else if IsStandard() then kyu
      else KanjiEnums.Kyu.None
    }

    function Reason(): JinmeiReason {
      if JinmeiKanji? then reason else JinmeiReason.None
    }

    function Link(): Wrappers.Option<Kanji> {
      if IsLinked() then Wrappers.Some(linked.link) else Wrappers.None
    }

    function Number(): int {
      if IsNumbered() then numbered.number else 0
    }
  }

  // ---------------------------------------------------------------------------
  // Properties of the hierarchy

  /**
   * A Linked kind has no meaning, reading or Official data of its own: it
   * shows its link's meaning and reading, names the link as its new name, has
   * no old names, reads through the link, and keeps the defaults for grade,
   * level, reason, number and year. Its frequency and kyu are its own.
   */
  lemma LinkedDelegates(k: Kanji)
    requires k.IsLinked()
    ensures k.Link() == Wrappers.Some(k.linked.link)
    ensures k.Meaning() == k.linked.link.Meaning() && k.Reading() == k.linked.link.Reading()
    ensures k.NewName() == Wrappers.Some(k.linked.link.Name()) && k.OldNames() == []
    ensures k.HasLinkedReading()
    ensures k.Frequency() == k.linked.frequency && k.Kyu() == k.linked.kyu
    ensures k.Grade() == Grade.None && k.Level() == Level.None && k.Reason() == JinmeiReason.None
    ensures k.Number() == 0 && k.Year() == 0
  {
  }

  /**
   * The meaning and reading of a valid kanji are stored in it or in its link,
   * which is itself a Loaded kanji with no link: links never chain.
   */
  lemma LinksDoNotChain(k: Kanji)
    requires k.Valid()
    ensures k.Link().Some? ==>
      && k.Link().value.IsOfficial() && k.Link().value.Valid() && k.Link().value.Link().None?
      && k.Meaning() == k.Link().value.loaded.meaning && k.Reading() == k.Link().value.loaded.reading
    ensures k.Link().None? ==> k.IsLoaded() && k.Meaning() == k.loaded.meaning && k.Reading() == k.loaded.reading
  {
  }

  /**
   * An Other kind uses its link names one way or the other: as old names when
   * they are old forms, otherwise the first is the new name and the rest are
   * unused. It never has both, and no Other kind carries a link.
   */
  lemma OtherNames(k: Kanji)
    requires k.IsOther()
    ensures k.other.oldLinks ==> k.OldNames() == k.other.linkNames && k.NewName().None?
    ensures !k.other.oldLinks ==> k.OldNames() == []
    ensures !k.other.oldLinks && k.other.linkNames != [] ==> k.NewName() == Wrappers.Some(k.other.linkNames[0])
    ensures k.other.linkNames == [] ==> k.OldNames() == [] && k.NewName().None?
    ensures k.OldNames() == [] || k.NewName().None?
    ensures k.Link().None? && k.HasLinkedReading() == k.other.linkedReadings
  {
  }

  /**
   * Numbered kinds keep their kyu and number, never have old names and never
   * read through a link; Official kinds also keep level, frequency and year
   * and have no new name.
   */
  lemma NumberedKeepsFields(k: Kanji)
    requires k.IsNumbered()
    ensures k.Kyu() == k.numbered.kyu && k.Number() == k.numbered.number
    ensures k.OldNames() == [] && !k.HasLinkedReading() && k.Link().None?
    ensures k.Meaning() == k.loaded.meaning && k.Reading() == k.loaded.reading
    ensures k.IsOfficial() ==>
      && k.Level() == k.official.level && k.Frequency() == k.official.frequency
      && k.Year() == k.official.year && k.NewName().None?
  {
  }

  /**
   * For a valid kanji each sentinel value marks exactly the kinds that do not
   * define the getter: only Jouyou kanji have a grade, only Jinmei kanji a
   * reason, only Linked kinds a link, only Official kinds a year; an Extra
   * kanji's number, a Frequency kanji's frequency and a Kentei kanji's kyu are
   * always set.
   */
  lemma SentinelsMarkKinds(k: Kanji)
    requires k.Valid()
    ensures k.Grade() != Grade.None <==> k.Type() == Jouyou
    ensures k.Reason() != JinmeiReason.None <==> k.Type() == Jinmei
    ensures k.Link().Some? <==> k.Type() in {LinkedJinmei, LinkedOld}
    ensures k.Type() == Jinmei ==> k.Year() != 0
    ensures !k.IsOfficial() ==> k.Year() == 0 && k.Level() == Level.None
    ensures k.Type() == Extra ==> k.Number() > 0
    ensures k.Type() == KanjiType.Frequency ==> k.Frequency() > 0
    ensures k.Type() == Kentei ==> k.Kyu() != Kyu.None
    ensures k.Type() == Ucd ==> k.Kyu() == Kyu.None && k.Frequency() == 0
  {
  }

  /** Each kind has its own type: the type tells the kind. */
  lemma TypeIdentifiesKind(a: Kanji, b: Kanji)
    requires a.Type() == b.Type()
    ensures a.JouyouKanji? == b.JouyouKanji? && a.JinmeiKanji? == b.JinmeiKanji?
    ensures a.LinkedJinmeiKanji? == b.LinkedJinmeiKanji? && a.LinkedOldKanji? == b.LinkedOldKanji?
    ensures a.ExtraKanji? == b.ExtraKanji? && a.FrequencyKanji? == b.FrequencyKanji?
    ensures a.KenteiKanji? == b.KenteiKanji? && a.UcdKanji? == b.UcdKanji?
  {
  }
}
