/**
 * The command-line arguments of the download pipeline and the checks made on them once
 * parsed: both years are digit strings, the end year is not before the start year, and the
 * session file path mentions `.json`.
 */
module BaseScrapingCli {
  import opened Wrappers
  import opened Text

  datatype CommandLineArguments = CommandLineArguments(
    miovisionUsername: string,
    miovisionPassword: string,
    authSessionFilePath: string,
    miovisionBaseFolder: string,
    startYear: string,
    endYear: string,
    timeInterval: string)

  /** The `ValueError`s `__post_init__` raises, in the order it checks for them. */
  datatype ArgumentError = YearsNotDigits | YearsOutOfOrder | AuthPathNotJson

  /** `__post_init__`: `None` when the arguments are accepted, otherwise the first check
      that fails. */
  function PostInit(args: CommandLineArguments): Option<ArgumentError>
  {
    if !IsDigits(args.startYear) || !IsDigits(args.endYear) then Some(YearsNotDigits)
    else
      IntOfDigits(args.startYear);
      IntOfDigits(args.endYear);
      if ParseInt(args.endYear).value < ParseInt(args.startYear).value then Some(YearsOutOfOrder)
      else if !Contains(args.authSessionFilePath, ".json") then Some(AuthPathNotJson)
      else None
  }

  /** `int(s)` on a string `isdigit` accepted: it never fails and reads the decimal value. */
  lemma IntOfDigits(s: string)
    requires IsDigits(s)
    ensures ParseInt(s) == Some(DigitsValue(s))
  {
    assert s[0] !in PythonSpace && s[|s| - 1] !in PythonSpace;
    assert StripLeft(s, PythonSpace) == s;
    assert Strip(s, PythonSpace) == s;
  }

  /** The arguments are accepted exactly when both years are digit strings, the end year's
      value is at least the start year's, and `.json` occurs somewhere in the path; each
      failure names the first check that failed. */
  lemma PostInitMeaning(args: CommandLineArguments)
    ensures PostInit(args) == None <==>
      && IsDigits(args.startYear) && IsDigits(args.endYear)
      && DigitsValue(args.startYear) <= DigitsValue(args.endYear)
      && (exists i :: 0 <= i <= |args.authSessionFilePath| && ".json" <= args.authSessionFilePath[i..])
    ensures PostInit(args) == Some(YearsNotDigits) <==> !IsDigits(args.startYear) || !IsDigits(args.endYear)
    ensures args.startYear == [] || args.endYear == [] ==> PostInit(args) == Some(YearsNotDigits)
    ensures PostInit(args) == Some(YearsOutOfOrder) <==>
      IsDigits(args.startYear) && IsDigits(args.endYear) && DigitsValue(args.endYear) < DigitsValue(args.startYear)
  {
    ContainsAt(args.authSessionFilePath, ".json");
    if IsDigits(args.startYear) && IsDigits(args.endYear) {
      IntOfDigits(args.startYear);
      IntOfDigits(args.endYear);
    }
  }

  /** Years are compared by value: zeros in front of either (non-empty) year change nothing. */
  lemma LeadingZerosIgnored(args: CommandLineArguments, zeros1: string, zeros2: string)
    requires args.startYear != [] && args.endYear != []
    requires forall k :: 0 <= k < |zeros1| ==> zeros1[k] == '0'
    requires forall k :: 0 <= k < |zeros2| ==> zeros2[k] == '0'
    ensures PostInit(args.(startYear := zeros1 + args.startYear, endYear := zeros2 + args.endYear)) == PostInit(args)
  {
    var padded := args.(startYear := zeros1 + args.startYear, endYear := zeros2 + args.endYear);
    if IsDigits(args.startYear) && IsDigits(args.endYear) {
      LeadingZeros(zeros1, args.startYear);
      LeadingZeros(zeros2, args.endYear);
      assert IsDigits(padded.startYear) by {
        forall k | 0 <= k < |padded.startYear| ensures IsDigit(padded.startYear[k]) {
          if k >= |zeros1| { assert padded.startYear[k] == args.startYear[k - |zeros1|]; }
        }
      }
      assert IsDigits(padded.endYear) by {
        forall k | 0 <= k < |padded.endYear| ensures IsDigit(padded.endYear[k]) {
          if k >= |zeros2| { assert padded.endYear[k] == args.endYear[k - |zeros2|]; }
        }
      }
      IntOfDigits(args.startYear);
      IntOfDigits(args.endYear);
      IntOfDigits(padded.startYear);
      IntOfDigits(padded.endYear);
    } else if !IsDigits(args.startYear) {
      var k :| 0 <= k < |args.startYear| && !IsDigit(args.startYear[k]);
      assert padded.startYear[|zeros1| + k] == args.startYear[k];
    } else {
      var k :| 0 <= k < |args.endYear| && !IsDigit(args.endYear[k]);
      assert padded.endYear[|zeros2| + k] == args.endYear[k];
    }
  }

  /** The same year twice is accepted when the path mentions `.json`. */
  lemma EqualYearsAccepted(args: CommandLineArguments)
    requires IsDigits(args.startYear) && args.endYear == args.startYear
    requires Contains(args.authSessionFilePath, ".json")
    ensures PostInit(args) == None
  {
  }

  /** The path test looks for `.json` anywhere, not at the end: a path that contains it is
      accepted wherever it stands (`"auth.json.bak"`), and one lacking it is refused. */
  lemma JsonAnywhere(args: CommandLineArguments, before: string, after: string, other: string)
    requires IsDigits(args.startYear) && IsDigits(args.endYear)
    requires DigitsValue(args.startYear) <= DigitsValue(args.endYear)
    requires !Contains(other, ".json")
    ensures PostInit(args.(authSessionFilePath := before + ".json" + after)) == None
    ensures PostInit(args.(authSessionFilePath := other)) == Some(AuthPathNotJson)
  {
    assert Contains(".json", ".json");
    ContainsInside(".json", ".json", after);
    ContainsInside(".json" + after, ".json", before);
    assert before + ".json" + after == before + (".json" + after);
    IntOfDigits(args.startYear);
    IntOfDigits(args.endYear);
  }
}
