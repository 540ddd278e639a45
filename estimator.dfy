/** The "Used Car Estimator" screen: the form state and the submission
    handler that validates the typed odometer and year, derives the car's
    age, queries the trained regressor and writes one message for display.

    The handler's decisions are given first as pure functions (Validate,
    ModelInput, Request, Display); the class EstimatorForm then performs the
    same guard chain on its mutable fields and is proved to write exactly
    the text these functions describe. */
module Estimator {
  import opened Wrappers
  import opened Conditions
  import opened Decimal

  /** The oldest model year the form accepts. */
  const MinYear: int := 1950

  const OdometerMessage: string := "Please enter a valid odometer value."
  const YearMessage: string := "Please enter a valid year."
  const RangePrefix: string := "Year must be between 1950 and "
  const FailurePrefix: string := "Prediction failed: "

  /** The message for a year outside the accepted range; it names the
      current year as an integer. */
  function RangeMessage(currentYear: int): string
  {
    RangePrefix + IntToString(currentYear) + "."
  }

  /** The regressor's input, one field per feature, in the order the model
      declares them. */
  datatype Features = Features(odometer: real, condition: real, year: real, carAge: real)

  /** The features as the ordered vector the model consumes. */
  function ToVector(f: Features): seq<real>
  {
    [f.odometer, f.condition, f.year, f.carAge]
  }

  /** What the handler uses but does not define. */
  datatype Collaborators = Collaborators(
    /** Swift's `Double(String)` initialiser: the number a text denotes, if any. */
    parseDouble: string -> Option<real>,
    /** Loading the bundled model: Some(description) when it throws. */
    loadFailure: Option<string>,
    /** One inference: the predicted price, or the description of the error thrown. */
    predict: Features -> Result<real, string>,
    /** `String(format: "%.2f", price)`. */
    formatPrice: real -> string)

  datatype ValidationError = InvalidOdometer | InvalidYear | YearOutOfRange

  /** The two validated numbers, as parsed, neither rounded nor truncated. */
  datatype Validated = Validated(odometer: real, year: real)

  /** What a submission comes to. */
  datatype Outcome = Rejected(reason: ValidationError) | ModelFailed(message: string) | Priced(price: real)

  /** The odometer guard passes: the text parses to a non-negative number. */
  predicate OdometerAccepted(parsed: Option<real>)
  {
    parsed.Some? && parsed.value >= 0.0
  }

  /** The year range guard passes: 1950 <= year <= currentYear, both ends included. */
  predicate YearInRange(y: real, currentYear: int)
  {
    MinYear as real <= y <= currentYear as real
  }

  /** The guard chain, in the order the handler runs it: odometer, then
      whether the year parses, then the year's range. */
  function Validate(odometerText: string, yearText: string, parse: string -> Option<real>, currentYear: int)
    : Result<Validated, ValidationError>
  {
    var odom := parse(odometerText);
    if !OdometerAccepted(odom) then Err(InvalidOdometer)
    else
      var yr := parse(yearText);
      if yr.None? then Err(InvalidYear)
      else if !YearInRange(yr.value, currentYear) then Err(YearOutOfRange)
      else Ok(Validated(odom.value, yr.value))
  }

  /** The features sent to the model for validated inputs; the age is taken
      from the same current year the range check used. */
  function ModelInput(v: Validated, condition: real, currentYear: int): Features
  {
    Features(v.odometer, condition, v.year, currentYear as real - v.year)
  }

  /** Loading the model and running one inference; anything thrown is caught. */
  function Invoke(env: Collaborators, input: Features): Outcome
  {
    if env.loadFailure.Some? then ModelFailed(env.loadFailure.value)
    else
      match env.predict(input)
      case Err(e) => ModelFailed(e)
      case Ok(price) => Priced(price)
  }

  /** The whole submission, from the form's values to its outcome. */
  function Request(odometerText: string, yearText: string, condition: real, env: Collaborators, currentYear: int)
    : Outcome
  {
    match Validate(odometerText, yearText, env.parseDouble, currentYear)
    case Err(e) => Rejected(e)
    case Ok(v) => Invoke(env, ModelInput(v, condition, currentYear))
  }

  /** The text shown for an outcome. */
  function Display(o: Outcome, currentYear: int, formatPrice: real -> string): string
  {
    match o
    case Rejected(InvalidOdometer) => OdometerMessage
    case Rejected(InvalidYear) => YearMessage
    case Rejected(YearOutOfRange) => RangeMessage(currentYear)
    case ModelFailed(m) => FailurePrefix + m
    case Priced(p) => "$" + formatPrice(p)
  }

  /** The text the handler writes into `prediction`. */
  function PredictionText(odometerText: string, yearText: string, condition: real, env: Collaborators, currentYear: int)
    : string
  {
    Display(Request(odometerText, yearText, condition, env, currentYear), currentYear, env.formatPrice)
  }

  /** The colour rule of the result label: green exactly when the text starts with "$". */
  predicate ShownAsPrice(text: string)
  {
    |text| > 0 && text[0] == '$'
  }

  // ---------------------------------------------------------------------
  // Properties of the guard chain

  /** A missing or negative odometer is reported whatever the year text, the
      clock, the model or the picker say: the odometer is checked first and
      nothing after it is reached. */
  lemma OdometerCheckedFirst(odometerText: string, yearText: string, condition: real, env: Collaborators, currentYear: int)
    ensures Request(odometerText, yearText, condition, env, currentYear) == Rejected(InvalidOdometer)
        <==> !OdometerAccepted(env.parseDouble(odometerText))
    ensures !OdometerAccepted(env.parseDouble(odometerText)) ==>
              PredictionText(odometerText, yearText, condition, env, currentYear) == OdometerMessage
  {
  }

  /** An unparseable year is reported exactly when the odometer passed. */
  lemma YearParsedSecond(odometerText: string, yearText: string, condition: real, env: Collaborators, currentYear: int)
    ensures Request(odometerText, yearText, condition, env, currentYear) == Rejected(InvalidYear)
        <==> OdometerAccepted(env.parseDouble(odometerText)) && env.parseDouble(yearText).None?
  {
  }

  /** A parsed year is rejected exactly when it lies outside 1950..currentYear,
      and the message names that current year. */
  lemma YearRangeCheckedThird(odometerText: string, yearText: string, condition: real, env: Collaborators, currentYear: int)
    ensures Request(odometerText, yearText, condition, env, currentYear) == Rejected(YearOutOfRange)
        <==> OdometerAccepted(env.parseDouble(odometerText)) && env.parseDouble(yearText).Some? &&
             !YearInRange(env.parseDouble(yearText).value, currentYear)
    ensures Request(odometerText, yearText, condition, env, currentYear) == Rejected(YearOutOfRange) ==>
              PredictionText(odometerText, yearText, condition, env, currentYear) == RangeMessage(currentYear)
  {
  }

  /** Validation succeeds exactly when all three guards pass, and then hands
      on the parsed numbers unchanged. */
  lemma ValidateAccepts(odometerText: string, yearText: string, parse: string -> Option<real>, currentYear: int)
    ensures Validate(odometerText, yearText, parse, currentYear).Ok?
        <==> OdometerAccepted(parse(odometerText)) && parse(yearText).Some? && YearInRange(parse(yearText).value, currentYear)
    ensures Validate(odometerText, yearText, parse, currentYear).Ok? ==>
              Validate(odometerText, yearText, parse, currentYear).value
                == Validated(parse(odometerText).value, parse(yearText).value)
  {
  }

  /** Both ends of the year range are accepted, the values just outside are
      not, and a year with a fractional part inside the range is accepted. */
  lemma YearBoundaries(currentYear: int)
    requires currentYear >= MinYear
    ensures YearInRange(MinYear as real, currentYear) && YearInRange(currentYear as real, currentYear)
    ensures !YearInRange(1949.99, currentYear) && !YearInRange(currentYear as real + 0.01, currentYear)
    ensures YearInRange(1950.5, currentYear) || currentYear == MinYear
  {
  }

  /** The model receives (odometer, condition, year, age) in that order, with
      the validated numbers and the picker's value unmodified; the age is the
      current year minus the model year, so it lies in 0..currentYear-1950. */
  lemma ModelInputShape(v: Validated, condition: real, currentYear: int, odometerText: string, yearText: string,
                        parse: string -> Option<real>)
    requires Validate(odometerText, yearText, parse, currentYear) == Ok(v)
    ensures ToVector(ModelInput(v, condition, currentYear))
         == [parse(odometerText).value, condition, parse(yearText).value, currentYear as real - parse(yearText).value]
    ensures 0.0 <= ModelInput(v, condition, currentYear).carAge <= (currentYear - MinYear) as real
    ensures ModelInput(v, condition, currentYear).odometer >= 0.0
  {
  }

  /** Once validation passes, the model's own behaviour decides the outcome:
      a failure to load or to predict becomes ModelFailed with the error's
      own text, and a prediction becomes Priced with that very price. */
  lemma ModelOutcome(odometerText: string, yearText: string, condition: real, env: Collaborators, currentYear: int)
    requires Validate(odometerText, yearText, env.parseDouble, currentYear).Ok?
    ensures var f := ModelInput(Validate(odometerText, yearText, env.parseDouble, currentYear).value, condition, currentYear);
            var o := Request(odometerText, yearText, condition, env, currentYear);
            (env.loadFailure.Some? ==> o == ModelFailed(env.loadFailure.value)) &&
            (env.loadFailure.None? && env.predict(f).Err? ==> o == ModelFailed(env.predict(f).error)) &&
            (env.loadFailure.None? && env.predict(f).Ok? ==> o == Priced(env.predict(f).value))
  {
  }

  /** The displayed text starts with "$" exactly for a price; every error
      text, "Prediction failed: ..." included, starts with another letter. */
  lemma PriceColourRule(o: Outcome, currentYear: int, formatPrice: real -> string)
    ensures ShownAsPrice(Display(o, currentYear, formatPrice)) <==> o.Priced?
  {
  }

  /** The range message names the current year in a form that reads back
      as that year. */
  lemma RangeMessageNamesYear(currentYear: int)
    ensures var msg := RangeMessage(currentYear);
            |msg| > |RangePrefix| + 1 && msg[..|RangePrefix|] == RangePrefix && msg[|msg| - 1] == '.' &&
            ParseInt(msg[|RangePrefix|..|msg| - 1]) == Some(currentYear)
  {
    var msg := RangeMessage(currentYear);
    assert msg[|RangePrefix|..|msg| - 1] == IntToString(currentYear);
    assert msg[..|RangePrefix|] == RangePrefix;
    IntRoundTrip(currentYear);
  }

  /** The four kinds of failure produce texts that tell them apart: equal
      texts for two rejections mean the same reason, and no rejection reads
      like a model failure. */
  lemma FailureTextsDistinct(o1: Outcome, o2: Outcome, currentYear: int, formatPrice: real -> string)
    requires o1.Rejected?
    requires Display(o1, currentYear, formatPrice) == Display(o2, currentYear, formatPrice)
    ensures o1 == o2
  {
    PriceColourRule(o1, currentYear, formatPrice);
    PriceColourRule(o2, currentYear, formatPrice);
    var t := Display(o1, currentYear, formatPrice);
    assert OdometerMessage[1] == 'l' && YearMessage[1] == 'l' && FailurePrefix[1] == 'r';
    assert OdometerMessage[21] == 'o' && YearMessage[21] == 'y';
    assert RangeMessage(currentYear)[0] == 'Y';
    if o1.reason == InvalidOdometer || o1.reason == InvalidYear {
      assert t[0] == 'P';
    }
  }

  /** Scenario: "45000", "2018" and Good in 2025 reach the model with
      [45000, 2, 2018, 7]. */
  lemma ScenarioAccepted(env: Collaborators)
    requires env.parseDouble("45000") == Some(45000.0) && env.parseDouble("2018") == Some(2018.0)
    ensures Validate("45000", "2018", env.parseDouble, 2025) == Ok(Validated(45000.0, 2018.0))
    ensures ToVector(ModelInput(Validated(45000.0, 2018.0), Tag(Good), 2025)) == [45000.0, 2.0, 2018.0, 7.0]
  {
  }

  // ---------------------------------------------------------------------
  // The form

  /** The screen's state. `condition` holds the picker's selection as the
      floating-point tag the model takes; `prediction` is the result label. */
  class EstimatorForm {
    var odometer: string
    var year: string
    var condition: real
    var prediction: string

    /** The picker only ever holds one of its five tags. */
    predicate Valid()
      reads this
    {
      FromTag(condition).Some?
    }

    /** Empty fields, "Good" selected, no result shown. */
    constructor ()
      ensures Valid()
      ensures odometer == "" && year == "" && condition == Tag(DefaultCondition) && prediction == ""
    {
      odometer := "";
      year := "";
      condition := 2.0;
      prediction := "";
    }

    /** Typing into the odometer field. */
    method EnterOdometer(text: string)
      requires Valid()
      modifies this`odometer
      ensures Valid() && odometer == text
    {
      odometer := text;
    }

    /** Typing into the year field. */
    method EnterYear(text: string)
      requires Valid()
      modifies this`year
      ensures Valid() && year == text
    {
      year := text;
    }

    /** Choosing a segment of the picker stores that segment's tag. */
    method SelectCondition(c: Condition)
      modifies this`condition
      ensures Valid() && FromTag(condition) == Some(c)
    {
      condition := Tag(c);
    }

    /** The submission handler: reads the clock once (`currentYear`), runs the
        guards in order, and writes exactly one message into `prediction`;
        only `prediction` changes, and nothing escapes as an error. */
    method PredictPrice(env: Collaborators, currentYear: int)
      requires Valid()
      modifies this`prediction
      ensures Valid()
      ensures prediction == PredictionText(odometer, year, condition, env, currentYear)
    {
      var odom := env.parseDouble(odometer);
      if !OdometerAccepted(odom) {
        prediction := OdometerMessage;
        return;
      }
      var yr := env.parseDouble(year);
      if yr.None? {
        prediction := YearMessage;
        return;
      }
      if !YearInRange(yr.value, currentYear) {
        prediction := RangeMessage(currentYear);
        return;
      }
      var carAge := currentYear as real - yr.value;
      if env.loadFailure.Some? {
        prediction := FailurePrefix + env.loadFailure.value;
        return;
      }
      var input := Features(odom.value, condition, yr.value, carAge);
      var result := env.predict(input);
      match result {
        case Ok(price) =>
          prediction := "$" + env.formatPrice(price);
        case Err(e) =>
          prediction := FailurePrefix + e;
      }
    }
  }
}
