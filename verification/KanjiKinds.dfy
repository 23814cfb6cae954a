/**
 * The constructors of the eight kinds of kanji. Each takes the arguments of
 * the source's constructor, makes that kind's checks and fails with the
 * message "<ClassName>: <problem>", or gives the kanji.
 */
module KanjiKinds {
  import opened Wrappers
  import opened KanjiEnums
  import opened Kanji

  /** The message of a failed check in the constructor of `className`. */
  function KanjiError(className: string, problem: string): string {
    className + ": " + problem
  }

  /** What every kind reports for the fields all kanji share. */
  predicate HasFields(k: Kanji, name: string, radical: string, strokes: int) {
    k.Name() == name && k.Radical() == radical && k.Strokes() == strokes
  }

  /**
   * What a Loaded kind reports from its stored meaning and reading: those,
   * and no link.
   */
  predicate HasLoaded(k: Kanji, meaning: string, reading: string) {
    k.Meaning() == meaning && k.Reading() == reading && k.Link().None?
  }

  /**
   * What an Other kind reports from its link names: all of them as old names
   * when they are old forms, else the first as the new name.
   */
  predicate HasOtherNames(k: Kanji, oldLinks: bool, linkNames: seq<string>, linkedReadings: bool) {
    && k.OldNames() == (if oldLinks then linkNames else [])
    && k.NewName() == (if linkNames == [] || oldLinks then Option.None else Some(linkNames[0]))
    && k.HasLinkedReading() == linkedReadings
  }

  /** `JouyouKanji`: refuses a missing grade. */
  function NewJouyouKanji(name: string, radical: string, strokes: int, meaning: string, reading: string,
                          kyu: Kyu, number: int, level: Level, frequency: int, year: int, grade: Grade)
    : (r: Result<Kanji, string>)
    ensures r.Err? <==> grade == Grade.None
    ensures r.Err? ==> r.error == KanjiError("JouyouKanji", "must have a valid grade")
    ensures r.Ok? ==>
      var k := r.value;
      && k.Valid() && k.Type() == Jouyou
      && HasFields(k, name, radical, strokes) && HasLoaded(k, meaning, reading)
      && k.Kyu() == kyu && k.Number() == number
      && k.Level() == level && k.Frequency() == frequency && k.Year() == year
      && k.Grade() == grade && k.Reason() == JinmeiReason.None
      && k.OldNames() == [] && k.NewName() == Option.None && !k.HasLinkedReading()
  {
    if grade == Grade.None then Err(KanjiError("JouyouKanji", "must have a valid grade"))
    else Ok(JouyouKanji(Fields(name, radical, strokes), LoadedFields(meaning, reading),
                        NumberedFields(kyu, number), OfficialFields(level, frequency, year), grade))
  }

  /** `JinmeiKanji`: refuses a missing reason, then a year of 0. */
  function NewJinmeiKanji(name: string, radical: string, strokes: int, meaning: string, reading: string,
                          kyu: Kyu, number: int, level: Level, frequency: int, year: int, reason: JinmeiReason)
    : (r: Result<Kanji, string>)
    ensures r.Err? <==> reason == JinmeiReason.None || year == 0
    ensures reason == JinmeiReason.None ==> r == Err(KanjiError("JinmeiKanji", "must have a valid reason"))
    ensures reason != JinmeiReason.None && year == 0 ==> r == Err(KanjiError("JinmeiKanji", "must have a valid year"))
    ensures r.Ok? ==>
      var k := r.value;
      && k.Valid() && k.Type() == Jinmei
      && HasFields(k, name, radical, strokes) && HasLoaded(k, meaning, reading)
      && k.Kyu() == kyu && k.Number() == number
      && k.Level() == level && k.Frequency() == frequency && k.Year() == year
      && k.Reason() == reason && k.Grade() == Grade.None
      && k.OldNames() == [] && k.NewName() == Option.None && !k.HasLinkedReading()
  {
    if reason == JinmeiReason.None then Err(KanjiError("JinmeiKanji", "must have a valid reason"))
    else if year == 0 then Err(KanjiError("JinmeiKanji", "must have a valid year"))
    else Ok(JinmeiKanji(Fields(name, radical, strokes), LoadedFields(meaning, reading),
                        NumberedFields(kyu, number), OfficialFields(level, frequency, year), reason))
  }

  /**
   * What a Linked kind reports: its link's meaning, reading and name, its own
   * frequency and kyu, and the defaults for everything Official.
   */
  predicate HasLinked(k: Kanji, link: Kanji, frequency: int, kyu: Kyu) {
    && k.Link() == Some(link)
    && k.Meaning() == link.Meaning() && k.Reading() == link.Reading()
    && k.NewName() == Some(link.Name()) && k.OldNames() == [] && k.HasLinkedReading()
    && k.Frequency() == frequency && k.Kyu() == kyu
    && k.Grade() == Grade.None && k.Level() == Level.None && k.Reason() == JinmeiReason.None
    && k.Number() == 0 && k.Year() == 0
  }

  /** `LinkedJinmeiKanji`: refuses a link that is not a Jouyou or Jinmei kanji. */
  function NewLinkedJinmeiKanji(name: string, radical: string, strokes: int, link: Kanji, frequency: int, kyu: Kyu)
    : (r: Result<Kanji, string>)
    requires link.Valid()
    ensures r.Err? <==> !(link.Type() in {Jouyou, Jinmei})
    ensures r.Err? ==> r.error == KanjiError("LinkedJinmeiKanji", "link must be JouyouKanji or JinmeiKanji")
    ensures r.Ok? ==>
      && r.value.Valid() && r.value.Type() == LinkedJinmei
      && HasFields(r.value, name, radical, strokes) && HasLinked(r.value, link, frequency, kyu)
  {
    if !link.IsOfficial() then Err(KanjiError("LinkedJinmeiKanji", "link must be JouyouKanji or JinmeiKanji"))
    else Ok(LinkedJinmeiKanji(Fields(name, radical, strokes), LinkedFields(link, frequency, kyu)))
  }

  /** `LinkedOldKanji`: refuses a link that is not a Jouyou kanji (a Jinmei link included). */
  function NewLinkedOldKanji(name: string, radical: string, strokes: int, link: Kanji, frequency: int, kyu: Kyu)
    : (r: Result<Kanji, string>)
    requires link.Valid()
    ensures r.Err? <==> link.Type() != Jouyou
    ensures r.Err? ==> r.error == KanjiError("LinkedOldKanji", "link must be JouyouKanji")
    ensures r.Ok? ==>
      && r.value.Valid() && r.value.Type() == LinkedOld
      && HasFields(r.value, name, radical, strokes) && HasLinked(r.value, link, frequency, kyu)
  {
    if !link.JouyouKanji? then Err(KanjiError("LinkedOldKanji", "link must be JouyouKanji"))
    else Ok(LinkedOldKanji(Fields(name, radical, strokes), LinkedFields(link, frequency, kyu)))
  }

  /** `ExtraKanji`: refuses a number that is not positive; an empty new name means none. */
  function NewExtraKanji(name: string, radical: string, strokes: int, meaning: string, reading: string,
                         kyu: Kyu, number: int, newName: string)
    : (r: Result<Kanji, string>)
    ensures r.Err? <==> number <= 0
    ensures r.Err? ==> r.error == KanjiError("ExtraKanji", "number must be greater than zero")
    ensures r.Ok? ==>
      var k := r.value;
      && k.Valid() && k.Type() == Extra
      && HasFields(k, name, radical, strokes) && HasLoaded(k, meaning, reading)
      && k.Kyu() == kyu && k.Number() == number
      && (k.NewName().None? <==> newName == "")
      && (newName != "" ==> k.NewName() == Some(newName))
      && k.OldNames() == [] && !k.HasLinkedReading()
      && k.Frequency() == 0 && k.Year() == 0 && k.Level() == Level.None
      && k.Grade() == Grade.None && k.Reason() == JinmeiReason.None
  {
    if number <= 0 then Err(KanjiError("ExtraKanji", "number must be greater than zero"))
    else Ok(ExtraKanji(Fields(name, radical, strokes), LoadedFields(meaning, reading),
                       NumberedFields(kyu, number), if newName == "" then Option.None else Some(newName)))
  }

  /** `FrequencyKanji`: refuses a frequency that is not positive; the kyu is not checked. */
  function NewFrequencyKanji(name: string, radical: string, strokes: int, meaning: string, reading: string,
                             oldLinks: bool, linkNames: seq<string>, linkedReadings: bool, kyu: Kyu, frequency: int)
    : (r: Result<Kanji, string>)
    ensures r.Err? <==> frequency <= 0
    ensures r.Err? ==> r.error == KanjiError("FrequencyKanji", "frequency must be greater than zero")
    ensures r.Ok? ==>
      var k := r.value;
      && k.Valid() && k.Type() == KanjiType.Frequency
      && HasFields(k, name, radical, strokes) && HasLoaded(k, meaning, reading)
      && HasOtherNames(k, oldLinks, linkNames, linkedReadings)
      && k.Kyu() == kyu && k.Frequency() == frequency
      && k.Number() == 0 && k.Year() == 0 && k.Level() == Level.None
      && k.Grade() == Grade.None && k.Reason() == JinmeiReason.None
  {
    if frequency <= 0 then Err(KanjiError("FrequencyKanji", "frequency must be greater than zero"))
    else Ok(FrequencyKanji(Fields(name, radical, strokes), LoadedFields(meaning, reading),
                           OtherFields(oldLinks, linkNames, linkedReadings), kyu, frequency))
  }

  /** `KenteiKanji`: refuses a missing kyu. */
  function NewKenteiKanji(name: string, radical: string, strokes: int, meaning: string, reading: string,
                          oldLinks: bool, linkNames: seq<string>, linkedReadings: bool, kyu: Kyu)
    : (r: Result<Kanji, string>)
    ensures r.Err? <==> kyu == Kyu.None
    ensures r.Err? ==> r.error == KanjiError("KenteiKanji", "must have a valid Kyu")
    ensures r.Ok? ==>
      var k := r.value;
      && k.Valid() && k.Type() == Kentei
      && HasFields(k, name, radical, strokes) && HasLoaded(k, meaning, reading)
      && HasOtherNames(k, oldLinks, linkNames, linkedReadings)
      && k.Kyu() == kyu && k.Frequency() == 0
      && k.Number() == 0 && k.Year() == 0 && k.Level() == Level.None
      && k.Grade() == Grade.None && k.Reason() == JinmeiReason.None
  {
    if kyu == Kyu.None then Err(KanjiError("KenteiKanji", "must have a valid Kyu"))
    else Ok(KenteiKanji(Fields(name, radical, strokes), LoadedFields(meaning, reading),
                        OtherFields(oldLinks, linkNames, linkedReadings), kyu))
  }

  /** `UcdKanji`: no checks of its own. */
  function NewUcdKanji(name: string, radical: string, strokes: int, meaning: string, reading: string,
                       oldLinks: bool, linkNames: seq<string>, linkedReadings: bool)
    : (r: Result<Kanji, string>)
    ensures r.Ok?
    ensures
      var k := r.value;
      && k.Valid() && k.Type() == Ucd
      && HasFields(k, name, radical, strokes) && HasLoaded(k, meaning, reading)
      && HasOtherNames(k, oldLinks, linkNames, linkedReadings)
      && k.Kyu() == Kyu.None && k.Frequency() == 0
      && k.Number() == 0 && k.Year() == 0 && k.Level() == Level.None
      && k.Grade() == Grade.None && k.Reason() == JinmeiReason.None
  {
    Ok(UcdKanji(Fields(name, radical, strokes), LoadedFields(meaning, reading),
                OtherFields(oldLinks, linkNames, linkedReadings)))
  }

  /**
   * The constructors reach exactly the valid kanji: rebuilding a valid kanji
   * from what its getters report (and, for the Other kinds, its link names)
   * gives it back.
   */
  lemma ValidKanjiAreConstructed(k: Kanji)
    requires k.Valid()
    ensures k.JouyouKanji? ==>
      NewJouyouKanji(k.Name(), k.Radical(), k.Strokes(), k.Meaning(), k.Reading(), k.Kyu(), k.Number(),
                     k.Level(), k.Frequency(), k.Year(), k.Grade()) == Ok(k)
    ensures k.JinmeiKanji? ==>
      NewJinmeiKanji(k.Name(), k.Radical(), k.Strokes(), k.Meaning(), k.Reading(), k.Kyu(), k.Number(),
                     k.Level(), k.Frequency(), k.Year(), k.Reason()) == Ok(k)
    ensures k.LinkedJinmeiKanji? ==>
      k.Link().value.Valid() &&
      NewLinkedJinmeiKanji(k.Name(), k.Radical(), k.Strokes(), k.Link().value, k.Frequency(), k.Kyu()) == Ok(k)
    ensures k.LinkedOldKanji? ==>
      k.Link().value.Valid() &&
      NewLinkedOldKanji(k.Name(), k.Radical(), k.Strokes(), k.Link().value, k.Frequency(), k.Kyu()) == Ok(k)
    ensures k.ExtraKanji? ==>
      NewExtraKanji(k.Name(), k.Radical(), k.Strokes(), k.Meaning(), k.Reading(), k.Kyu(), k.Number(),
                    if k.NewName().Some? then k.NewName().value else "") == Ok(k)
    ensures k.FrequencyKanji? ==>
      NewFrequencyKanji(k.Name(), k.Radical(), k.Strokes(), k.Meaning(), k.Reading(),
                        k.other.oldLinks, k.other.linkNames, k.HasLinkedReading(), k.Kyu(), k.Frequency()) == Ok(k)
    ensures k.KenteiKanji? ==>
      NewKenteiKanji(k.Name(), k.Radical(), k.Strokes(), k.Meaning(), k.Reading(),
                     k.other.oldLinks, k.other.linkNames, k.HasLinkedReading(), k.Kyu()) == Ok(k)
    ensures k.UcdKanji? ==>
      NewUcdKanji(k.Name(), k.Radical(), k.Strokes(), k.Meaning(), k.Reading(),
                  k.other.oldLinks, k.other.linkNames, k.HasLinkedReading()) == Ok(k)
  {
  }

  /** A LinkedOld kanji can always be a LinkedJinmei kanji with the same link, but not the other way round. */
  lemma LinkedOldIsStricter(name: string, radical: string, strokes: int, link: Kanji, frequency: int, kyu: Kyu)
    requires link.Valid()
    ensures NewLinkedOldKanji(name, radical, strokes, link, frequency, kyu).Ok? ==>
      NewLinkedJinmeiKanji(name, radical, strokes, link, frequency, kyu).Ok?
    ensures link.JinmeiKanji? ==>
      NewLinkedJinmeiKanji(name, radical, strokes, link, frequency, kyu).Ok? &&
      NewLinkedOldKanji(name, radical, strokes, link, frequency, kyu).Err?
  {
  }
}
