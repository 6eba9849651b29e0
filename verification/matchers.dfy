/**
 The discrete matchers of conditionals.py: parity, HTTP status codes and the
 command dispatcher. Each ends in a catch-all, so every one is total. For
 parity and HTTP status, lemmas show that the message is faithful: the number
 can be read back from it. The dispatcher's catch-all is stated directly as
 the command echoed as typed.
 */
module Matchers {
  import opened Text

  // ---------------------------------------------------------------------------
  // check_even_odd and check_even_odd_compact
  //
  // Python's `%` floors, Dafny's is Euclidean; for the positive divisor 2 both
  // give a remainder in {0, 1}, so `number % 2 == 0` means the same in both.
  // ---------------------------------------------------------------------------

  const EvenSuffix := " is even"
  const OddSuffix := " is odd"

  /** The if/else form: the number's decimal text followed by its parity. */
  function CheckEvenOdd(number: int): (r: string)
    ensures (|r| > |EvenSuffix| && r[..|r| - |EvenSuffix|] == IntToString(number)
             && r[|r| - |EvenSuffix|..] == EvenSuffix) <==> number % 2 == 0
    ensures (|r| > |OddSuffix| && r[..|r| - |OddSuffix|] == IntToString(number)
             && r[|r| - |OddSuffix|..] == OddSuffix) <==> number % 2 != 0
  {
    if number % 2 == 0 then IntToString(number) + EvenSuffix
    else IntToString(number) + OddSuffix
  }

  /** The ternary form: one f-string with the parity word chosen inside it. */
  function CheckEvenOddCompact(number: int): (r: string)
    ensures var n := |IntToString(number)|;
      && |r| > n + 4
      && r[..n] == IntToString(number)
      && r[n..n + 4] == " is "
      && (r[n + 4..] == "even" <==> number % 2 == 0)
      && (r[n + 4..] == "odd" <==> number % 2 != 0)
  {
    IntToString(number) + " is " + (if number % 2 == 0 then "even" else "odd")
  }

  /** The two forms return the same string for every integer. */
  lemma EvenOddFormsAgree(number: int)
    ensures CheckEvenOdd(number) == CheckEvenOddCompact(number)
  {
    var digits := IntToString(number);
    if number % 2 == 0 {
      assert digits + " is " + "even" == digits + EvenSuffix;
    } else {
      assert digits + " is " + "odd" == digits + OddSuffix;
    }
  }

  /** Nothing is lost: the message determines the number. */
  lemma EvenOddInjective(a: int, b: int)
    requires CheckEvenOdd(a) == CheckEvenOdd(b)
    ensures a == b
  {
    var r := CheckEvenOdd(a);
    // The last letter, 'n' of "even" or 'd' of "odd", gives the parity away.
    assert r[|r| - 1] == (if a % 2 == 0 then 'n' else 'd');
    assert CheckEvenOdd(b)[|r| - 1] == (if b % 2 == 0 then 'n' else 'd');
    var k := if a % 2 == 0 then |EvenSuffix| else |OddSuffix|;
    assert IntToString(a) == r[..|r| - k] == IntToString(b);
    IntToStringInjective(a, b);
  }

  // ---------------------------------------------------------------------------
  // handle_http_status
  // ---------------------------------------------------------------------------

  const UnknownStatusPrefix := "Unknown status code: "

  predicate KnownStatus(statusCode: int) {
    statusCode == 200 || statusCode == 404 || statusCode == 500
  }

  function HandleHttpStatus(statusCode: int): (r: string)
    ensures statusCode == 200 <==> r == "OK - Request successful"
    ensures statusCode == 404 <==> r == "Not Found"
    ensures statusCode == 500 <==> r == "Internal Server Error"
    ensures !KnownStatus(statusCode) ==> r == UnknownStatusPrefix + IntToString(statusCode)
    ensures !KnownStatus(statusCode) <==>
              |r| > |UnknownStatusPrefix|
              && r[..|UnknownStatusPrefix|] == UnknownStatusPrefix
              && ParseInt(r[|UnknownStatusPrefix|..]) == Some(statusCode)
  {
    match statusCode
    case 200 => "OK - Request successful"
    case 404 => "Not Found"
    case 500 => "Internal Server Error"
    case _ =>
      var code := IntToString(statusCode);
      var r := UnknownStatusPrefix + code;
      assert r[|UnknownStatusPrefix|..] == code;
      IntToStringRoundTrip(statusCode);
      r
  }

  /** No two status codes share a message, the catch-all included. */
  lemma HttpStatusInjective(a: int, b: int)
    requires HandleHttpStatus(a) == HandleHttpStatus(b)
    ensures a == b
  {
    if !KnownStatus(a) && !KnownStatus(b) {
      var r := HandleHttpStatus(a);
      assert ParseInt(r[|UnknownStatusPrefix|..]) == Some(a);
      assert ParseInt(r[|UnknownStatusPrefix|..]) == Some(b);
    }
  }

  // ---------------------------------------------------------------------------
  // process_command
  // ---------------------------------------------------------------------------

  const HelpText := "Available commands: help, quit, save, load"
  const Goodbye := "Goodbye!"
  const SavingPrefix := "Saving to "
  const NoFilename := "Please specify filename"
  const LoadingPrefix := "Loading from "
  const UnknownCommandPrefix := "Unknown command: "

  /**
   The keywords, after lower-casing, that some case of the dispatcher accepts
   when given `argCount` extra arguments.
   */
  predicate Recognised(keyword: string, argCount: nat) {
    || keyword in {"help", "h", "quit", "exit", "q", "save"}
    || (keyword == "load" && argCount >= 1)
  }

  /**
   `process_command(command, *args)`: the lower-cased keyword picks the case,
   aliases share one outcome, and "save"/"load" look at the argument count.
   Anything else echoes the command as typed, not lower-cased.
   */
  function ProcessCommand(command: string, args: seq<string>): (r: string)
    ensures ToLower(command) in {"help", "h"} <==> r == HelpText
    ensures ToLower(command) in {"quit", "exit", "q"} <==> r == Goodbye
    ensures |args| >= 1 ==> (ToLower(command) == "save" <==> r == SavingPrefix + args[0])
    ensures ToLower(command) == "save" && |args| == 0 <==> r == NoFilename
    ensures |args| >= 1 ==> (ToLower(command) == "load" <==> r == LoadingPrefix + args[0])
    ensures !Recognised(ToLower(command), |args|) <==> r == UnknownCommandPrefix + command
  {
    var keyword := ToLower(command);
    // Every answer starts with its own letter, so no two cases can produce the same string.
    assert HelpText[0] == 'A' && Goodbye[0] == 'G' && NoFilename[0] == 'P';
    if keyword in {"help", "h"} then HelpText
    else if keyword in {"quit", "exit", "q"} then Goodbye
    else if keyword == "save" && |args| >= 1 then
      var r := SavingPrefix + args[0];
      assert r[0] == 'S';
      r
    else if keyword == "save" then NoFilename
    else if keyword == "load" && |args| >= 1 then
      var r := LoadingPrefix + args[0];
      assert r[0] == 'L';
      r
    else
      var r := UnknownCommandPrefix + command;
      assert r[0] == 'U';
      r
  }

  /**
   The keyword is matched without regard to case: two spellings with the same
   lower-case form get the same answer unless both fall to the catch-all,
   which repeats each spelling as typed.
   */
  lemma ProcessCommandCaseInsensitive(c1: string, c2: string, args: seq<string>)
    requires ToLower(c1) == ToLower(c2)
    requires Recognised(ToLower(c1), |args|)
    ensures ProcessCommand(c1, args) == ProcessCommand(c2, args)
  {
  }

  /**
   Lower-casing the command before dispatching changes nothing for a
   recognised keyword, since lower-casing twice is lower-casing once.
   */
  lemma LowerCasedCommandSameAnswer(command: string, args: seq<string>)
    requires Recognised(ToLower(command), |args|)
    ensures ProcessCommand(ToLower(command), args) == ProcessCommand(command, args)
  {
    ToLowerIdempotent(command);
  }

  /** "load" without a file name is not an error message of its own: it falls to the catch-all. */
  lemma LoadWithoutArgumentIsUnknown(command: string)
    requires ToLower(command) == "load"
    ensures ProcessCommand(command, []) == UnknownCommandPrefix + command
  {
  }

  /** Upper-case spellings of a keyword are accepted, e.g. `process_command("SAVE", "out.txt")`. */
  lemma SaveIgnoresCase()
    ensures ProcessCommand("SAVE", ["out.txt"]) == "Saving to out.txt"
    ensures ProcessCommand("save", []) == "Please specify filename"
    ensures ProcessCommand("Load", []) == "Unknown command: Load"
  {
    assert ToLower("SAVE") == "save";
    assert ToLower("Load") == "load";
  }
}
