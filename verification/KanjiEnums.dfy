/**
 * The enumerations that classify a kanji. Constructors are declared in the
 * source's order and the `...Values` constants list them in that order, the
 * order `values()` gives.
 */
module KanjiEnums {

  /** Which group a kanji belongs to (one per kind of kanji). */
  datatype KanjiType = Jouyou | Jinmei | LinkedJinmei | LinkedOld | Frequency | Extra | Kentei | Ucd

  /** School grade of a Jouyou kanji; S is secondary school. */
  datatype Grade = G1 | G2 | G3 | G4 | G5 | G6 | S | None

  /** JLPT level, from the easiest (N5) to the hardest (N1). */
  datatype Level = N5 | N4 | N3 | N2 | N1 | None

  /** Kanji Kentei kyu, from the easiest (K10) to the hardest (K1); KJ is "jun". */
  datatype Kyu = K10 | K9 | K8 | K7 | K6 | K5 | K4 | K3 | KJ2 | K2 | KJ1 | K1 | None

  /** The official reason a kanji was added to the Jinmeiyou list. */
  datatype JinmeiReason = Names | Print | Variant | Moved | Simple | Other | None

  const KanjiTypeValues: seq<KanjiType> := [Jouyou, Jinmei, LinkedJinmei, LinkedOld, Frequency, Extra, Kentei, Ucd]
  const GradeValues: seq<Grade> := [G1, G2, G3, G4, G5, G6, S, Grade.None]
  const LevelValues: seq<Level> := [N5, N4, N3, N2, N1, Level.None]
  const KyuValues: seq<Kyu> := [K10, K9, K8, K7, K6, K5, K4, K3, KJ2, K2, KJ1, K1, Kyu.None]
  const JinmeiReasonValues: seq<JinmeiReason> := [Names, Print, Variant, Moved, Simple, Other, JinmeiReason.None]

  /** Each list names every value exactly once, and `None` always comes last. */
  lemma ValuesAreComplete()
    ensures |KanjiTypeValues| == 8 && forall t: KanjiType :: t in KanjiTypeValues
    ensures |GradeValues| == 8 && forall g: Grade :: g in GradeValues
    ensures |LevelValues| == 6 && forall l: Level :: l in LevelValues
    ensures |KyuValues| == 13 && forall k: Kyu :: k in KyuValues
    ensures |JinmeiReasonValues| == 7 && forall r: JinmeiReason :: r in JinmeiReasonValues
    ensures GradeValues[7] == Grade.None && LevelValues[5] == Level.None
    ensures KyuValues[12] == Kyu.None && JinmeiReasonValues[6] == JinmeiReason.None
    ensures forall i, j :: 0 <= i < j < |KyuValues| ==> KyuValues[i] != KyuValues[j]
    ensures forall i, j :: 0 <= i < j < |GradeValues| ==> GradeValues[i] != GradeValues[j]
  {
    forall t: KanjiType ensures t in KanjiTypeValues {
      match t
      case Jouyou => assert KanjiTypeValues[0] == t;
      case Jinmei => assert KanjiTypeValues[1] == t;
      case LinkedJinmei => assert KanjiTypeValues[2] == t;
      case LinkedOld => assert KanjiTypeValues[3] == t;
      case Frequency => assert KanjiTypeValues[4] == t;
      case Extra => assert KanjiTypeValues[5] == t;
      case Kentei => assert KanjiTypeValues[6] == t;
      case Ucd => assert KanjiTypeValues[7] == t;
    }
    forall g: Grade ensures g in GradeValues {
      match g
      case G1 => assert GradeValues[0] == g;
      case G2 => assert GradeValues[1] == g;
      case G3 => assert GradeValues[2] == g;
      case G4 => assert GradeValues[3] == g;
      case G5 => assert GradeValues[4] == g;
      case G6 => assert GradeValues[5] == g;
      case S => assert GradeValues[6] == g;
      case None => assert GradeValues[7] == g;
    }
    forall l: Level ensures l in LevelValues {
      match l
      case N5 => assert LevelValues[0] == l;
      case N4 => assert LevelValues[1] == l;
      case N3 => assert LevelValues[2] == l;
      case N2 => assert LevelValues[3] == l;
      case N1 => assert LevelValues[4] == l;
      case None => assert LevelValues[5] == l;
    }
    forall k: Kyu ensures k in KyuValues {
      match k
      case K10 => assert KyuValues[0] == k;
      case K9 => assert KyuValues[1] == k;
      case K8 => assert KyuValues[2] == k;
      case K7 => assert KyuValues[3] == k;
      case K6 => assert KyuValues[4] == k;
      case K5 => assert KyuValues[5] == k;
      case K4 => assert KyuValues[6] == k;
      case K3 => assert KyuValues[7] == k;
      case KJ2 => assert KyuValues[8] == k;
      case K2 => assert KyuValues[9] == k;
      case KJ1 => assert KyuValues[10] == k;
      case K1 => assert KyuValues[11] == k;
      case None => assert KyuValues[12] == k;
    }
    forall r: JinmeiReason ensures r in JinmeiReasonValues {
      match r
      case Names => assert JinmeiReasonValues[0] == r;
      case Print => assert JinmeiReasonValues[1] == r;
      case Variant => assert JinmeiReasonValues[2] == r;
      case Moved => assert JinmeiReasonValues[3] == r;
      case Simple => assert JinmeiReasonValues[4] == r;
      case Other => assert JinmeiReasonValues[5] == r;
      case None => assert JinmeiReasonValues[6] == r;
    }
  }
}
