/**
 * MsgfParameters: the MS-GF+ specific search settings, their defaults,
 * setters and getters, their field-wise equality and their KEY=value
 * rendering.
 *
 * A Java `Integer` field, which may be null, is an Option<int>; an `int`
 * field is an int.
 */
module Msgf {

  import opened Outcomes

  /** The search engines; only MS-GF+ is named here, the others are told apart by an index. */
  datatype Advocate = MsgfPlus | OtherAdvocate(index: nat)

  /** The values of the twelve fields of a parameter object. */
  datatype Settings = Settings(
    searchDecoyDatabase: bool,
    instrumentID: int,
    fragmentationType: int,
    protocol: int,
    minPeptideLength: Option<int>,
    maxPeptideLength: Option<int>,
    numberOfSpectrumMarches: Option<int>,
    additionalOutput: bool,
    lowerIsotopeErrorRange: Option<int>,
    upperIsotopeErrorRange: Option<int>,
    numberTolerableTermini: Option<int>,
    numberOfPtmsPerPeptide: Option<int>)

  /** The field initialisers. */
  const DEFAULTS: Settings := Settings(false, 3, 3, 0, Some(8), Some(30), Some(10), false, Some(-1), Some(2), Some(2), Some(2))

  // ---------------------------------------------------------------------
  // equals
  // ---------------------------------------------------------------------

  /** Integer.equals: a null argument is unequal; a null receiver throws. */
  function IntegerEquals(receiver: Option<int>, argument: Option<int>): Result<bool> {
    if receiver.None? then Err(NullReference)
    else Ok(argument.Some? && argument.value == receiver.value)
  }

  /**
   * The ten comparisons of equals, in source order, each returning false
   * as soon as the fields differ. The isotope error ranges are not compared.
   */
  function SameSettings(a: Settings, b: Settings): Result<bool> {
    if a.searchDecoyDatabase != b.searchDecoyDatabase then Ok(false)
    else if a.instrumentID != b.instrumentID then Ok(false)
    else if a.fragmentationType != b.fragmentationType then Ok(false)
    else if a.protocol != b.protocol then Ok(false)
    else
      var minSame :- IntegerEquals(a.minPeptideLength, b.minPeptideLength);
      if !minSame then Ok(false)
      else
        var maxSame :- IntegerEquals(a.maxPeptideLength, b.maxPeptideLength);
        if !maxSame then Ok(false)
        else
          var matchesSame :- IntegerEquals(a.numberOfSpectrumMarches, b.numberOfSpectrumMarches);
          if !matchesSame then Ok(false)
          else if a.additionalOutput != b.additionalOutput then Ok(false)
          else
            var terminiSame :- IntegerEquals(a.numberTolerableTermini, b.numberTolerableTermini);
            if !terminiSame then Ok(false)
            else
              var ptmsSame :- IntegerEquals(a.numberOfPtmsPerPeptide, b.numberOfPtmsPerPeptide);
              Ok(ptmsSame)
  }

  /** The ten compared fields. */
  function Compared(s: Settings): (bool, int, int, int, Option<int>, Option<int>, Option<int>, bool, Option<int>, Option<int>) {
    (s.searchDecoyDatabase, s.instrumentID, s.fragmentationType, s.protocol, s.minPeptideLength,
     s.maxPeptideLength, s.numberOfSpectrumMarches, s.additionalOutput, s.numberTolerableTermini,
     s.numberOfPtmsPerPeptide)
  }

  /** None of the compared Integer fields is null. */
  predicate ComparedNonNull(s: Settings) {
    && s.minPeptideLength.Some? && s.maxPeptideLength.Some? && s.numberOfSpectrumMarches.Some?
    && s.numberTolerableTermini.Some? && s.numberOfPtmsPerPeptide.Some?
  }

  /**
   * With non-null Integer fields on the receiver, equals is exactly the
   * equality of the ten compared fields, the isotope ranges playing no
   * part; it throws only when it reaches a null Integer field of the
   * receiver.
   */
  lemma SameSettingsMeaning(a: Settings, b: Settings)
    ensures ComparedNonNull(a) ==> SameSettings(a, b) == Ok(Compared(a) == Compared(b))
    ensures SameSettings(a, b).Err? ==> !ComparedNonNull(a) && SameSettings(a, b).error == NullReference
    ensures SameSettings(a, b) == Ok(true) ==> ComparedNonNull(a) && Compared(a) == Compared(b)
  {
  }

  /** equals is reflexive on settings whose compared Integer fields are not null. */
  lemma SameSettingsReflexive(a: Settings)
    requires ComparedNonNull(a)
    ensures SameSettings(a, a) == Ok(true)
  {
    SameSettingsMeaning(a, a);
  }

  /** equals is symmetric when neither side has a null compared Integer field. */
  lemma SameSettingsSymmetric(a: Settings, b: Settings)
    requires ComparedNonNull(a) && ComparedNonNull(b)
    ensures SameSettings(a, b) == SameSettings(b, a)
  {
    SameSettingsMeaning(a, b);
    SameSettingsMeaning(b, a);
  }

  /** Two settings equal to a third one are equal to each other. */
  lemma SameSettingsTransitive(a: Settings, b: Settings, c: Settings)
    requires SameSettings(a, b) == Ok(true) && SameSettings(b, c) == Ok(true)
    ensures SameSettings(a, c) == Ok(true)
  {
    SameSettingsMeaning(a, b);
    SameSettingsMeaning(b, c);
    SameSettingsMeaning(a, c);
  }

  // ---------------------------------------------------------------------
  // toString
  // ---------------------------------------------------------------------

  function DigitChar(d: nat): char
    requires d < 10
  {
    ('0' as int + d) as char
  }

  /** The decimal digits of n, most significant first. */
  function NatToString(n: nat): (r: string)
    ensures r != [] && forall i :: 0 <= i < |r| ==> '0' <= r[i] <= '9'
  {
    if n < 10 then [DigitChar(n)] else NatToString(n / 10) + [DigitChar(n % 10)]
  }

  /** Integer.toString / StringBuilder.append(int). */
  function IntToString(x: int): string {
    if x < 0 then "-" + NatToString(-x) else NatToString(x)
  }

  /** The value of a string of decimal digits. */
  function ParseNat(s: string): nat
    requires forall i :: 0 <= i < |s| ==> '0' <= s[i] <= '9'
  {
    if s == [] then 0 else ParseNat(s[..|s| - 1]) * 10 + (s[|s| - 1] as int - '0' as int)
  }

  /** The value of an optional minus sign followed by decimal digits. */
  function ParseInt(s: string): int
    requires s != [] && (s[0] == '-' || '0' <= s[0] <= '9')
    requires forall i :: 1 <= i < |s| ==> '0' <= s[i] <= '9'
  {
    if s[0] == '-' then -(ParseNat(s[1..]) as int) else ParseNat(s)
  }

  lemma {:induction false} ParseNatToString(n: nat)
    ensures ParseNat(NatToString(n)) == n
  {
    if n >= 10 {
      var r := NatToString(n);
      ParseNatToString(n / 10);
      assert r[..|r| - 1] == NatToString(n / 10);
    } else {
      assert NatToString(n)[..0] == [];
    }
  }

  /** Reading back a rendered int gives the int. */
  lemma ParseIntToString(x: int)
    ensures var s := IntToString(x);
      s != [] && (s[0] == '-' || '0' <= s[0] <= '9') && (forall i :: 1 <= i < |s| ==> '0' <= s[i] <= '9')
      && ParseInt(s) == x
  {
    if x < 0 {
      ParseNatToString(-x);
      assert IntToString(x)[1..] == NatToString(-x);
    } else {
      ParseNatToString(x);
    }
  }

  /** StringBuilder.append(boolean). */
  function BoolToString(b: bool): string {
    if b then "true" else "false"
  }

  /** StringBuilder.append(Integer): "null" for a null value. */
  function IntegerToString(x: Option<int>): string {
    if x.None? then "null" else IntToString(x.value)
  }

  const RULE: string := "# ------------------------------------------------------------------"

  /** The three header lines and the blank line. */
  function Header(advocateName: string, newLine: string): string {
    RULE + newLine + "# " + advocateName + " Specific Parameters" + newLine + RULE + newLine + newLine
  }

  /** One KEY=value line. */
  function Line(key: string, value: string, newLine: string): string {
    key + "=" + value + newLine
  }

  /**
   * The text of toString: the header, then one KEY=value line per compared
   * field, in a fixed order.
   */
  function Rendered(s: Settings, advocateName: string, newLine: string): string {
    Header(advocateName, newLine)
      + Line("SEARCH_DECOY", BoolToString(s.searchDecoyDatabase), newLine)
      + Line("INSTRUMENT_ID", IntToString(s.instrumentID), newLine)
      + Line("FRAGMENTATION_ID", IntToString(s.fragmentationType), newLine)
      + Line("PROTOCOL_ID", IntToString(s.protocol), newLine)
      + Line("MIN_PEP_LENGTH", IntegerToString(s.minPeptideLength), newLine)
      + Line("MAX_PEP_LENGTH", IntegerToString(s.maxPeptideLength), newLine)
      + Line("NUMBER_SPECTRUM_MATCHES", IntegerToString(s.numberOfSpectrumMarches), newLine)
      + Line("ADDITIONAL_OUTPUT", BoolToString(s.additionalOutput), newLine)
      + Line("NUMBER_OF_TOLERABLE_TERMINI", IntegerToString(s.numberTolerableTermini), newLine)
      + Line("MAX_NUMBER_PTMS", IntegerToString(s.numberOfPtmsPerPeptide), newLine)
  }

  /** The line separator toString uses. */
  function NewLine(html: bool, lineSeparator: string): string {
    if html then "<br>" else lineSeparator
  }

  /** Settings that equals accepts render to the same text: the isotope ranges do not appear. */
  lemma SameSettingsSameText(a: Settings, b: Settings, advocateName: string, newLine: string)
    requires SameSettings(a, b) == Ok(true)
    ensures Rendered(a, advocateName, newLine) == Rendered(b, advocateName, newLine)
  {
    SameSettingsMeaning(a, b);
  }

  // ---------------------------------------------------------------------
  // The parameter object
  // ---------------------------------------------------------------------

  class MsgfParameters {
    var searchDecoyDatabase: bool
    var instrumentID: int
    var fragmentationType: int
    var protocol: int
    var minPeptideLength: Option<int>
    var maxPeptideLength: Option<int>
    var numberOfSpectrumMarches: Option<int>
    var additionalOutput: bool
    var lowerIsotopeErrorRange: Option<int>
    var upperIsotopeErrorRange: Option<int>
    var numberTolerableTermini: Option<int>
    var numberOfPtmsPerPeptide: Option<int>

    /** The current value of every field. */
    function Values(): Settings
      reads this
    {
      Settings(searchDecoyDatabase, instrumentID, fragmentationType, protocol, minPeptideLength,
               maxPeptideLength, numberOfSpectrumMarches, additionalOutput, lowerIsotopeErrorRange,
               upperIsotopeErrorRange, numberTolerableTermini, numberOfPtmsPerPeptide)
    }

    /** A fresh object holds the field initialisers. */
    constructor ()
      ensures Values() == DEFAULTS
    {
      searchDecoyDatabase := false;
      instrumentID := 3;
      fragmentationType := 3;
      protocol := 0;
      minPeptideLength := Some(8);
      maxPeptideLength := Some(30);
      numberOfSpectrumMarches := Some(10);
      additionalOutput := false;
      lowerIsotopeErrorRange := Some(-1);
      upperIsotopeErrorRange := Some(2);
      numberTolerableTermini := Some(2);
      numberOfPtmsPerPeptide := Some(2);
    }

    /** getAlgorithm. */
    function GetAlgorithm(): (a: Advocate)
      ensures a == MsgfPlus
    {
      MsgfPlus
    }

    /**
     * equals(IdentificationAlgorithmParameter): `other` is null when the
     * argument is not an MsgfParameters object, which makes it unequal.
     */
    function Equals(other: MsgfParameters?): (r: Result<bool>)
      reads this, other
      ensures other == null ==> r == Ok(false)
      ensures other != null && ComparedNonNull(Values()) ==> r == Ok(Compared(Values()) == Compared(other.Values()))
      ensures r.Err? ==> !ComparedNonNull(Values()) && r.error == NullReference
    {
      if other == null then Ok(false)
      else
        SameSettingsMeaning(Values(), other.Values());
        SameSettings(Values(), other.Values())
    }

    /** toString(boolean html), with the platform line separator as a parameter. */
    method ToString(html: bool, lineSeparator: string, advocateName: string) returns (output: string)
      ensures output == Rendered(Values(), advocateName, NewLine(html, lineSeparator))
    {
      var newLine := lineSeparator;
      if html {
        newLine := "<br>";
      }
      output := RULE + newLine;
      output := output + "# " + advocateName + " Specific Parameters" + newLine;
      output := output + RULE + newLine + newLine;
      assert output == Header(advocateName, newLine);
      output := output + Line("SEARCH_DECOY", BoolToString(searchDecoyDatabase), newLine);
      output := output + Line("INSTRUMENT_ID", IntToString(instrumentID), newLine);
      output := output + Line("FRAGMENTATION_ID", IntToString(fragmentationType), newLine);
      output := output + Line("PROTOCOL_ID", IntToString(protocol), newLine);
      output := output + Line("MIN_PEP_LENGTH", IntegerToString(minPeptideLength), newLine);
      output := output + Line("MAX_PEP_LENGTH", IntegerToString(maxPeptideLength), newLine);
      output := output + Line("NUMBER_SPECTRUM_MATCHES", IntegerToString(numberOfSpectrumMarches), newLine);
      output := output + Line("ADDITIONAL_OUTPUT", BoolToString(additionalOutput), newLine);
      output := output + Line("NUMBER_OF_TOLERABLE_TERMINI", IntegerToString(numberTolerableTermini), newLine);
      output := output + Line("MAX_NUMBER_PTMS", IntegerToString(numberOfPtmsPerPeptide), newLine);
    }

    function SearchDecoyDatabase(): bool reads this { searchDecoyDatabase }
    function GetInstrumentID(): int reads this { instrumentID }
    function GetFragmentationType(): int reads this { fragmentationType }
    function GetProtocol(): int reads this { protocol }
    function GetMinPeptideLength(): Option<int> reads this { minPeptideLength }
    function GetMaxPeptideLength(): Option<int> reads this { maxPeptideLength }
    function GetNumberOfSpectrumMatches(): Option<int> reads this { numberOfSpectrumMarches }
    function IsAdditionalOutput(): bool reads this { additionalOutput }
    function GetNumberTolerableTermini(): Option<int> reads this { numberTolerableTermini }
    function GetNumberOfPtmsPerPeptide(): Option<int> reads this { numberOfPtmsPerPeptide }

    method SetSearchDecoyDatabase(value: bool)
      modifies this
      ensures Values() == old(Values()).(searchDecoyDatabase := value) && SearchDecoyDatabase() == value
    {
      searchDecoyDatabase := value;
    }

    method SetInstrumentID(value: int)
      modifies this
      ensures Values() == old(Values()).(instrumentID := value) && GetInstrumentID() == value
    {
      instrumentID := value;
    }

    method SetFragmentationType(value: int)
      modifies this
      ensures Values() == old(Values()).(fragmentationType := value) && GetFragmentationType() == value
    {
      fragmentationType := value;
    }

    method SetProtocol(value: int)
      modifies this
      ensures Values() == old(Values()).(protocol := value) && GetProtocol() == value
    {
      protocol := value;
    }

    method SetMinPeptideLength(value: Option<int>)
      modifies this
      ensures Values() == old(Values()).(minPeptideLength := value) && GetMinPeptideLength() == value
    {
      minPeptideLength := value;
    }

    method SetMaxPeptideLength(value: Option<int>)
      modifies this
      ensures Values() == old(Values()).(maxPeptideLength := value) && GetMaxPeptideLength() == value
    {
      maxPeptideLength := value;
    }

    method SetNumberOfSpectrumMarches(value: Option<int>)
      modifies this
      ensures Values() == old(Values()).(numberOfSpectrumMarches := value) && GetNumberOfSpectrumMatches() == value
    {
      numberOfSpectrumMarches := value;
    }

    method SetAdditionalOutput(value: bool)
      modifies this
      ensures Values() == old(Values()).(additionalOutput := value) && IsAdditionalOutput() == value
    {
      additionalOutput := value;
    }

    method SetNumberTolerableTermini(value: Option<int>)
      modifies this
      ensures Values() == old(Values()).(numberTolerableTermini := value) && GetNumberTolerableTermini() == value
    {
      numberTolerableTermini := value;
    }

    method SetNumberOfPtmsPerPeptide(value: Option<int>)
      modifies this
      ensures Values() == old(Values()).(numberOfPtmsPerPeptide := value) && GetNumberOfPtmsPerPeptide() == value
    {
      numberOfPtmsPerPeptide := value;
    }
  }
}
