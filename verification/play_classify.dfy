/** The play-by-play flag parser and the two play classifiers: play type
    (Scramble, Pass, Run, Other) and play style within the type. */
module PlayClassify {
  import opened Text

  /** The spellings read as "set" and the ones explicitly read as "not set". */
  const TrueWords: set<string> := {"1", "y", "yes", "true", "t"}
  const FalseWords: set<string> := {"0", "n", "no", "false", "f", ""}

  /** `_to_bool`: strip, lower-case, then look the word up; the explicit false
      words and everything unrecognised read as false. */
  function ToBool(x: string): (b: bool)
    ensures b <==> Strip(Lower(x)) in TrueWords
  {
    StripLower(x);
    var s := Lower(Strip(x));
    if s in TrueWords then true
    else if s in FalseWords then false
    else false
  }

  /** The flag reading ignores case. */
  lemma ToBoolIgnoresCase(x: string, y: string)
    requires Lower(x) == Lower(y)
    ensures ToBool(x) == ToBool(y)
  {
  }

  /** The flag reading ignores surrounding whitespace. */
  lemma ToBoolIgnoresPadding(w1: string, x: string, w2: string)
    requires AllSpace(w1) && AllSpace(w2)
    ensures ToBool(w1 + x + w2) == ToBool(x)
  {
    StripIgnoresPadding(w1, x, w2);
  }

  /** Every explicit false word, and every word that is in neither list,
      reads as false. */
  lemma ToBoolFalseOtherwise(x: string)
    requires Lower(Strip(x)) in FalseWords || Lower(Strip(x)) !in TrueWords
    ensures !ToBool(x)
  {
    var w := Lower(Strip(x));
    if w in FalseWords {
      NotTrueWord(w);
    }
    StripLower(x);
  }

  /** A capitalised true word, with surrounding whitespace, reads as true. */
  lemma ToBoolPaddedTrue()
    ensures ToBool(" True\n")
  {
    assert " True\n" == " " + "True" + "\n";
    assert AllSpace(" ") && AllSpace("\n");
    ToBoolIgnoresPadding(" ", "True", "\n");
    LowerTrue();
    ToBoolWord("True", "true");
  }

  lemma LowerTrue()
    ensures Lower("True") == "true"
  {
    var l := Lower("True");
    assert l[0] == LowerChar('T') == 't';
    assert l[1] == 'r' && l[2] == 'u' && l[3] == 'e';
  }

  /** An upper-case false word reads as false. */
  lemma ToBoolUpperFalse()
    ensures !ToBool("FALSE")
  {
    ToBoolWord("FALSE", "false");
    NotTrueWord("false");
  }

  /** A missing value, printed as "nan", reads as false. */
  lemma ToBoolMissing()
    ensures !ToBool("nan")
  {
    ToBoolWord("nan", "nan");
    NotTrueWord("nan");
  }

  /** A word without whitespace is read by its lower-case form. */
  lemma ToBoolWord(x: string, w: string)
    requires |x| > 0 && !IsSpace(x[0]) && !IsSpace(x[|x| - 1])
    requires Lower(x) == w
    ensures ToBool(x) <==> w in TrueWords
  {
    assert StripStart(x) == x;
    assert StripEnd(x) == x;
  }

  lemma NotTrueWord(w: string)
    requires w in FalseWords || w == "nan" || w == "2"
    ensures w !in TrueWords
  {
  }

  /** One play after cleaning: the flag columns already read with `ToBool`,
      the run/pass code upper-cased and stripped, the run concept as text. */
  datatype Play = Play(
    qbScramble: bool,
    runPass: string,
    screen: bool,
    playAction: bool,
    runPassOption: bool,
    deepPass: bool,
    draw: bool,
    runConcept: string)

  datatype PlayType = Scramble | Pass | Run | Other

  datatype Style =
    | Screen | PlayAction | Rpo | Deep | Standard
    | Draw | InsideZone | OutsideZone | GapPowerCounter | OtherRun
    | ScrambleStyle | OtherStyle

  function TypeLabel(t: PlayType): string {
    match t
    case Scramble => "Scramble"
    case Pass => "Pass"
    case Run => "Run"
    case Other => "Other"
  }

  function StyleLabel(st: Style): string {
    match st
    case Screen => "Screen"
    case PlayAction => "Play Action"
    case Rpo => "RPO"
    case Deep => "Deep"
    case Standard => "Standard"
    case Draw => "Draw"
    case InsideZone => "Inside Zone"
    case OutsideZone => "Outside Zone"
    case GapPowerCounter => "Gap/Power/Counter"
    case OtherRun => "Other Run"
    case ScrambleStyle => "Scramble"
    case OtherStyle => "Other"
  }

  /** The four type labels are distinct. */
  lemma TypeLabelsDistinct(x: PlayType, y: PlayType)
    ensures TypeLabel(x) == TypeLabel(y) ==> x == y
  {
  }

  /** The twelve style labels. */
  const StyleLabels: set<string> := {
    "Screen", "Play Action", "RPO", "Deep", "Standard",
    "Draw", "Inside Zone", "Outside Zone", "Gap/Power/Counter", "Other Run",
    "Scramble", "Other"}

  /** Every style is reported under its own label, one of the twelve. */
  lemma StyleLabelsDistinct(x: Style, y: Style)
    ensures StyleLabel(x) in StyleLabels
    ensures StyleLabel(x) == StyleLabel(y) ==> x == y
  {
  }

  const PassStyles: set<Style> := {Screen, PlayAction, Rpo, Deep, Standard}
  const RunStyles: set<Style> := {Draw, InsideZone, OutsideZone, GapPowerCounter, OtherRun}

  /** `classify_type`: a scramble first, whatever the run/pass code says. */
  function ClassifyType(play: Play): (t: PlayType)
    ensures play.qbScramble ==> t == Scramble
    ensures !play.qbScramble ==>
              (t == Pass <==> play.runPass == "P") &&
              (t == Run <==> play.runPass == "R") &&
              (t == Other <==> play.runPass != "P" && play.runPass != "R")
  {
    if play.qbScramble then Scramble
    else if play.runPass == "P" then Pass
    else if play.runPass == "R" then Run
    else Other
  }

  /** The run-concept tests, in order, on the upper-cased concept. */
  predicate IsInsideZone(concept: string) {
    Contains(concept, "INSIDE ZONE") || Contains(concept, "INSIDEZONE")
  }

  predicate IsOutsideZone(concept: string) {
    Contains(concept, "OUTSIDE ZONE") || Contains(concept, "OUTSIDEZONE") || Contains(concept, "WIDE ZONE")
  }

  predicate IsGapScheme(concept: string) {
    exists k :: k in ["POWER", "COUNTER", "GAP", "DUO"] && Contains(concept, k)
  }

  /** `classify_style`, given the play's type: pass styles for a pass, run
      styles for a run, and one style each for a scramble and anything else. */
  function ClassifyStyle(play: Play, t: PlayType): (st: Style)
    ensures t == Pass <==> st in PassStyles
    ensures t == Run <==> st in RunStyles
    ensures t == Scramble <==> st == ScrambleStyle
    ensures t == Other <==> st == OtherStyle
  {
    match t
    case Pass =>
      if play.screen then Screen
      else if play.playAction then PlayAction
      else if play.runPassOption then Rpo
      else if play.deepPass then Deep
      else Standard
    case Run =>
      if play.draw then Draw
      else
        var concept := Upper(play.runConcept);
        if IsInsideZone(concept) then InsideZone
        else if IsOutsideZone(concept) then OutsideZone
        else if IsGapScheme(concept) then GapPowerCounter
        else OtherRun
    case Scramble => ScrambleStyle
    case Other => OtherStyle
  }

  /** Pass styles go by priority Screen, Play Action, RPO, Deep, and Standard
      when no flag is set. */
  lemma PassStylePriority(play: Play)
    ensures var st := ClassifyStyle(play, Pass);
            (st == Screen <==> play.screen) &&
            (st == PlayAction <==> !play.screen && play.playAction) &&
            (st == Rpo <==> !play.screen && !play.playAction && play.runPassOption) &&
            (st == Deep <==> !play.screen && !play.playAction && !play.runPassOption && play.deepPass) &&
            (st == Standard <==> !play.screen && !play.playAction && !play.runPassOption && !play.deepPass)
  {
  }

  /** Run styles: Draw first, then inside zone, outside or wide zone, a gap
      scheme, and Other Run when nothing matches; the concept is matched
      without regard to case. */
  lemma RunStylePriority(play: Play)
    ensures var st := ClassifyStyle(play, Run);
            var c := Upper(play.runConcept);
            (st == Draw <==> play.draw) &&
            (st == InsideZone <==> !play.draw && IsInsideZone(c)) &&
            (st == OutsideZone <==> !play.draw && !IsInsideZone(c) && IsOutsideZone(c)) &&
            (st == GapPowerCounter <==> !play.draw && !IsInsideZone(c) && !IsOutsideZone(c) && IsGapScheme(c)) &&
            (st == OtherRun <==> !play.draw && !IsInsideZone(c) && !IsOutsideZone(c) && !IsGapScheme(c))
  {
  }

  /** A pass is classified from the pass flags alone, a run from the draw flag
      and the run concept alone. */
  lemma StyleReadsOnlyItsOwnFields(play: Play, other: Play)
    ensures play.screen == other.screen && play.playAction == other.playAction &&
            play.runPassOption == other.runPassOption && play.deepPass == other.deepPass ==>
              ClassifyStyle(play, Pass) == ClassifyStyle(other, Pass)
    ensures play.draw == other.draw && Upper(play.runConcept) == Upper(other.runConcept) ==>
              ClassifyStyle(play, Run) == ClassifyStyle(other, Run)
  {
  }

  /** The two columns as the cleaning step fills them. */
  function Classify(play: Play): (r: (PlayType, Style))
    ensures r.1 == ScrambleStyle <==> play.qbScramble
    ensures r.1 in PassStyles <==> !play.qbScramble && play.runPass == "P"
    ensures r.1 in RunStyles <==> !play.qbScramble && play.runPass == "R"
  {
    var t := ClassifyType(play);
    (t, ClassifyStyle(play, t))
  }

  lemma RunConceptExamples(play: Play)
    requires !play.draw
    ensures ClassifyStyle(play.(runConcept := "Inside Zone"), Run) == InsideZone
    ensures ClassifyStyle(play.(runConcept := "wide zone"), Run) == OutsideZone
    ensures ClassifyStyle(play.(runConcept := "Duo"), Run) == GapPowerCounter
    ensures ClassifyStyle(play.(runConcept := "nan"), Run) == OtherRun
  {
    assert OccursAt(Upper("Inside Zone"), "INSIDE ZONE", 0);
    assert OccursAt(Upper("wide zone"), "WIDE ZONE", 0);
    var duo := Upper("Duo");
    assert OccursAt(duo, "DUO", 0);
    assert "DUO" in ["POWER", "COUNTER", "GAP", "DUO"];
    assert IsGapScheme(duo);
    assert !IsInsideZone(duo) && !IsOutsideZone(duo) by {
      assert |duo| < |"WIDE ZONE"|;
    }
    assert !IsInsideZone(Upper("wide zone")) by {
      assert |Upper("wide zone")| < |"INSIDE ZONE"|;
      assert |Upper("wide zone")| < |"INSIDEZONE"|;
    }
    var nan := Upper("nan");
    assert nan == "NAN";
    assert !IsGapScheme(nan) by {
      forall k | k in ["POWER", "COUNTER", "GAP", "DUO"] ensures !Contains(nan, k) {
        assert forall i :: OccursAt(nan, k, i) ==> nan[i] == k[0];
      }
    }
  }
}
