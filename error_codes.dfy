/**
 * The code computed for each diagnostic of the Move compiler's JSON output
 * (`compute_error_code`), which `collect_errors` groups by.
 */
module ErrorCodes {
  import opened Wrappers
  import opened Strings

  /**
   * One diagnostic record of the compiler's JSON array. A record without a
   * "level" has the empty level; `externalPrefix` is None when the key is absent.
   */
  datatype Diagnostic = Diagnostic(
    file: string,
    line: nat,
    column: nat,
    level: string,
    category: nat,
    code: nat,
    msg: string,
    externalPrefix: Option<string>)

  /** The levels that have an entry in the severity table. */
  predicate KnownLevel(level: string)
  {
    level in {"BlockingError", "NonblockingError", "Warning", "Note", "Bug", "Error"}
  }

  /** Severity letter(s) for a level; an unlisted level contributes its first character. */
  function SeverityPrefix(level: string): (p: string)
    ensures level == "BlockingError" || level == "Error" ==> p == "E"
    ensures level == "NonblockingError" ==> p == "N"
    ensures level == "Warning" ==> p == "W"
    ensures level == "Note" ==> p == "I"
    ensures level == "Bug" ==> p == "ICE"
    ensures !KnownLevel(level) ==> p == level[..if level == "" then 0 else 1]
    ensures p == "" <==> level == ""
  {
    match level
    case "BlockingError" => "E"
    case "NonblockingError" => "N"
    case "Warning" => "W"
    case "Note" => "I"
    case "Bug" => "ICE"
    case "Error" => "E"
    case _ => if level != "" then [level[0]] else ""
  }

  /** The linter special case: a warning whose code is 4. */
  predicate IsLint(d: Diagnostic)
  {
    d.code == 4 && d.level == "Warning"
  }

  /** The code padded to two digits followed by the category padded to three. */
  function CodeDigits(d: Diagnostic): string
  {
    ZFill(DecimalString(d.code), 2) + ZFill(DecimalString(d.category), 3)
  }

  /**
   * The text in front of the digits: "Lint " and the severity for a lint;
   * otherwise a non-empty external prefix (Python truthiness) and the severity.
   */
  function Head(d: Diagnostic): string
  {
    var sev := SeverityPrefix(d.level);
    if IsLint(d) then "Lint " + sev
    else if d.externalPrefix.Some? && d.externalPrefix.value != "" then d.externalPrefix.value + sev
    else sev
  }

  /** `compute_error_code`: the grouping key of a diagnostic record. */
  function ComputeErrorCode(d: Diagnostic): string
  {
    Head(d) + CodeDigits(d)
  }

  /** The padded code and category are digits only, at least five of them. */
  lemma CodeDigitsAreDigits(d: Diagnostic)
    ensures |CodeDigits(d)| >= 5 && AllDigits(CodeDigits(d))
  {
    ZFillDigits(DecimalString(d.code), 2);
    ZFillDigits(DecimalString(d.category), 3);
  }

  /** Reads a computed code back from its end: head, two-digit code, three-digit category. */
  function SplitErrorCode(s: string): Option<(string, nat, nat)>
  {
    if |s| >= 5 && AllDigits(s[|s| - 5..|s| - 3]) && AllDigits(s[|s| - 3..]) then
      Some((s[..|s| - 5], ParseDecimal(s[|s| - 5..|s| - 3]), ParseDecimal(s[|s| - 3..])))
    else
      None
  }

  /**
   * While code and category fit their padding widths, the computed code
   * determines the head, the code and the category.
   */
  lemma ErrorCodeRoundTrip(d: Diagnostic)
    requires d.code < 100 && d.category < 1000
    ensures SplitErrorCode(ComputeErrorCode(d)) == Some((Head(d), d.code, d.category))
  {
    DecimalLength(d.code, 2);
    DecimalLength(d.category, 3);
    ZFillDecimal(d.code, 2);
    ZFillDecimal(d.category, 3);
    var codeStr := ZFill(DecimalString(d.code), 2);
    var catStr := ZFill(DecimalString(d.category), 3);
    var r := ComputeErrorCode(d);
    assert r == Head(d) + codeStr + catStr;
    assert r[|r| - 5..|r| - 3] == codeStr;
    assert r[|r| - 3..] == catStr;
    assert r[..|r| - 5] == Head(d);
  }

  /** A lint code is "Lint W" and the digits, whatever the external prefix. */
  lemma LintIgnoresExternalPrefix(d: Diagnostic, prefix: Option<string>)
    requires IsLint(d)
    ensures ComputeErrorCode(d) == "Lint W" + CodeDigits(d)
    ensures ComputeErrorCode(d) == ComputeErrorCode(d.(externalPrefix := prefix))
  {
    assert SeverityPrefix(d.level) == "W";
  }

  /** Outside the lint case a non-empty external prefix is put in front of the plain code. */
  lemma ExternalPrefixPrepended(d: Diagnostic, prefix: string)
    requires !IsLint(d) && prefix != ""
    ensures ComputeErrorCode(d.(externalPrefix := Some(prefix)))
         == prefix + ComputeErrorCode(d.(externalPrefix := None))
  {
  }

  // The concrete examples below are each split into one lemma per record,
  // plus a lemma for the decimal strings involved (WideCodeA/B, WideDecimals,
  // ExampleDecimals, SampleWarningCodes, SampleLintCodes, SampleDecimals).
  // The split exists only to keep every proof obligation small; the facts
  // are those of the lemma that calls them.

  /** Beyond the padding widths distinct (code, category) pairs can share one computed code. */
  lemma WideCodesCollide()
    ensures ComputeErrorCode(Diagnostic("a.move", 1, 1, "Error", 3, 102, "", None)) == "E102003"
    ensures ComputeErrorCode(Diagnostic("a.move", 1, 1, "Error", 2003, 10, "", None)) == "E102003"
  {
    WideCodeA();
    WideCodeB();
  }

  lemma WideCodeA()
    ensures ComputeErrorCode(Diagnostic("a.move", 1, 1, "Error", 3, 102, "", None)) == "E102003"
  {
    var d := Diagnostic("a.move", 1, 1, "Error", 3, 102, "", None);
    WideDecimals();
    assert Head(d) == "E";
    assert ZFill("102", 2) == "102" && ZFill("3", 3) == "003";
  }

  lemma WideCodeB()
    ensures ComputeErrorCode(Diagnostic("a.move", 1, 1, "Error", 2003, 10, "", None)) == "E102003"
  {
    var d := Diagnostic("a.move", 1, 1, "Error", 2003, 10, "", None);
    WideDecimals();
    assert Head(d) == "E";
    assert ZFill("10", 2) == "10" && ZFill("2003", 3) == "2003";
  }

  /** The decimal strings the two colliding records are built from. */
  lemma WideDecimals()
    ensures DecimalString(102) == "102" && DecimalString(3) == "3"
    ensures DecimalString(10) == "10" && DecimalString(2003) == "2003"
  {
  }

  /** Code 123, category 1 under "Error" gives "E123001": wide codes are not truncated. */
  lemma ErrorExample()
    ensures ComputeErrorCode(Diagnostic("dummy.move", 1, 1, "Error", 1, 123, "dummy error", None)) == "E123001"
  {
    var d := Diagnostic("dummy.move", 1, 1, "Error", 1, 123, "dummy error", None);
    ExampleDecimals();
    assert Head(d) == "E";
    assert ZFill("123", 2) == "123" && ZFill("1", 3) == "001";
  }

  lemma ExampleDecimals()
    ensures DecimalString(123) == "123" && DecimalString(1) == "1"
  {
  }

  /** The four groups of the compiler-output sample used in the repository's tests. */
  lemma SampleCodes()
    ensures ComputeErrorCode(Sample()[0]) == "N01005"
    ensures ComputeErrorCode(Sample()[4]) == "W02004"
    ensures ComputeErrorCode(Sample()[5]) == "Lint W04004"
    ensures ComputeErrorCode(Sample()[6]) == "Lint W04001"
  {
    SampleWarningCodes();
    SampleLintCodes();
  }

  lemma SampleWarningCodes()
    ensures ComputeErrorCode(Sample()[0]) == "N01005"
    ensures ComputeErrorCode(Sample()[4]) == "W02004"
  {
    var s := Sample();
    SampleDecimals();
    SampleCode(s[0], "N", "01005");
    SampleCode(s[4], "W", "02004");
  }

  lemma SampleLintCodes()
    ensures ComputeErrorCode(Sample()[5]) == "Lint W04004"
    ensures ComputeErrorCode(Sample()[6]) == "Lint W04001"
  {
    var s := Sample();
    SampleDecimals();
    SampleCode(s[5], "Lint W", "04004");
    SampleCode(s[6], "Lint W", "04001");
  }

  /** The decimal strings of the sample's codes and categories. */
  lemma SampleDecimals()
    ensures DecimalString(1) == "1" && DecimalString(2) == "2"
    ensures DecimalString(4) == "4" && DecimalString(5) == "5"
  {
  }

  /** One sample record's code from its head and its digits. */
  lemma SampleCode(d: Diagnostic, head: string, digits: string)
    requires Head(d) == head && CodeDigits(d) == digits
    ensures ComputeErrorCode(d) == head + digits
  {
  }

  /** The seven records of that sample, in output order (four are the same ability error). */
  function Sample(): seq<Diagnostic>
  {
    var ability := "ability constraint not satisfied";
    [ Diagnostic("./sources/mine.move", 47, 12, "NonblockingError", 5, 1, ability, None),
      Diagnostic("./sources/mine.move", 50, 18, "NonblockingError", 5, 1, ability, None),
      Diagnostic("./sources/mine.move", 70, 12, "NonblockingError", 5, 1, ability, None),
      Diagnostic("./sources/mine.move", 70, 12, "NonblockingError", 5, 1, ability, None),
      Diagnostic("./sources/mine.move", 434, 8, "Warning", 4, 2, "unnecessary 'while (true)', replace with 'loop'", None),
      Diagnostic("./sources/icon.move", 6, 8, "Warning", 4, 4, "unneeded return", None),
      Diagnostic("object.move", 165, 4, "Warning", 1, 4, "invalid documentation comment", None) ]
  }
}
