# Conditional-logic classifiers, modelled in Dafny

`conditionals.py` is a teaching file of small, independent functions. Most
of them are classifiers: each maps an integer, a string or a small
structured value to one label from a fixed set, by a cascade of comparisons,
a ternary expression, or a `match` statement. The float-valued calculators,
the price formatter and `validate_input_compact` are left out (see
"## Left out"). This project models the pure part of each classifier as a
Dafny function. Their contracts pin down what the
functions are really about:

- the order in which branches are tried;
- which band each boundary value falls into;
- the fallbacks;
- how the compact and verbose forms relate.

Modules:

- `Text` (`text.dfy`) holds the string operations the classifiers use:
  - Python's `str()` of an integer, with a parser that inverts it;
  - ASCII versions of `isupper`, `islower`, `isdigit` and `lower()`;
  - `str.split` with a one-character separator, with joining as its inverse.
- `Thresholds` (`thresholds.dfy`) holds the integer and length threshold
  classifiers. Each contract gives the exact input band for each label. A rank
  on each multi-band label set states that the label moves monotonically with
  the input. For the user status, that input is the number of inactive days,
  with the login count held fixed. The two-label compact forms, warm/cool and
  pass/fail, are instead related to the five-band classifiers they coarsen.
- `Matchers` (`matchers.dfy`) holds parity, HTTP status and the command
  dispatcher.
- `Validators` (`validators.dfy`) holds the password and compact e-mail
  validators. Each is stated against an independent definition:
  - for the password, an ordered list of requirements;
  - for the e-mail, a description of the address by character positions.
- `Structural` (`structural.dfy`) holds `analyse_data_structure`. It works
  over a sum type `Value`, and its result is a `Shape` label that carries the
  interpolated payload.

Two behaviours of the code are easy to misread:

- The person pattern `{"name": name, "age": age}` accepts dictionaries with
  extra keys. It does not require exactly those two keys.
- Lists of three to six items fall through to the catch-all.

## Model

| member | source | states |
|---|---|---|
| `Thresholds.CheckTemperature` | conditionals.py:11-20 | each of the five labels is returned exactly on its band: above 30, 26-30, 21-25, 11-20, 10 and below |
| `Thresholds.TemperatureMonotone` | conditionals.py:11-20 | a higher temperature never gets a colder label |
| `Thresholds.CheckTemperatureCompact` | conditionals.py:69-71 | "It's warm today!" exactly above 25, "It's cool today!" otherwise |
| `Thresholds.CompactCoarsensVerbose` | conditionals.py:69-71 | the compact form says warm exactly when the verbose form says very hot or hot, and it never returns the verbose "warm" label |
| `Thresholds.GradeAssignment` | conditionals.py:24-34 | A+ exactly from 97, A on 90-96, B on 70-89, C on 50-69, and "Please try again. F " (with trailing space) below 50 |
| `Thresholds.GradeAssignmentMonotone` | conditionals.py:24-34 | a higher score never gets a lower grade |
| `Thresholds.GetPassFail` | conditionals.py:79-81 | "Pass" exactly when the score is at least 50 |
| `Thresholds.PassFailAgreesWithGrade` | conditionals.py:79-81 | pass/fail agrees with grade_assignment's F band for every score |
| `Thresholds.ProcessGradeCompact` | conditionals.py:155-159 | the letter bands of score plus extra credit, after the cap at 100 |
| `Thresholds.ExtraCreditNeverHurts` | conditionals.py:155-159 | more extra credit never lowers the letter, and the cap never changes it |
| `Thresholds.CategoriseAge` | conditionals.py:104-115 | negative ages are invalid; Child 0-12, Teenager 13-19, Adult 20-64, Senior from 65 |
| `Thresholds.CategoriseAgeMonotone` | conditionals.py:104-115 | an older age never gets a younger band, and the boundaries 13, 20 and 65 belong to the upper band |
| `Thresholds.GetUserStatusCompact` | conditionals.py:148-152 | "New User" exactly below 5 logins, whatever the inactivity; otherwise "Inactive" exactly beyond 30 days |
| `Thresholds.UserStatusMonotone` | conditionals.py:148-152 | from 5 logins on, a user is never "New User" and more inactive days never turn "Inactive" back into "Active"; below 5 logins the inactive days change nothing |
| `Thresholds.GetPriorityLevelCompact` | conditionals.py:202-207 | "Critical" exactly at 1 day or less; "High" exactly for an admin or premium user at 2-3 days; "Low" exactly beyond 7 days |
| `Thresholds.PriorityMonotone` | conditionals.py:202-207 | with the user fixed, a nearer deadline never lowers the priority |
| `Thresholds.OrdinaryUserNeverHigh` | conditionals.py:202-207 | a non-admin, non-premium user never gets "High"; at 2-7 days it gets "Medium" |
| `Thresholds.ClassifyTextLengthCompact` | conditionals.py:215-220 | Empty for the empty string, Short for 1-10 characters, Medium for 11-50, Long beyond |
| `Thresholds.TextLengthDependsOnlyOnLength` | conditionals.py:215-220 | texts of equal length get equal labels, and a longer text never gets a shorter label |
| `Matchers.CheckEvenOdd` | conditionals.py:39-43 | the message is the number's decimal text followed by " is even" exactly when number % 2 == 0, and by " is odd" otherwise |
| `Matchers.CheckEvenOddCompact` | conditionals.py:74-76 | the number's text, then " is ", then "even" exactly when number % 2 == 0 and "odd" exactly otherwise |
| `Matchers.EvenOddFormsAgree` | conditionals.py:74-76 | the verbose and compact forms return identical strings for every integer |
| `Matchers.EvenOddInjective` | conditionals.py:39-43 | two integers with the same parity message are equal |
| `Matchers.HandleHttpStatus` | conditionals.py:50-60 | each of 200, 404 and 500 maps to its own message and no other code does; any other code gets exactly the "Unknown status code: " prefix followed by the code's decimal text, and that text parses back to the code |
| `Matchers.HttpStatusInjective` | conditionals.py:50-60 | no two status codes share a message, catch-all included |
| `Matchers.ProcessCommand` | conditionals.py:227-241 | the lower-cased keyword selects help, quit (with aliases), save (with or without a file name) or load, and with an argument "Saving to "/"Loading from " plus the first argument comes exactly from save/load; an unrecognised keyword, and load without an argument, echo the command exactly as typed |
| `Matchers.LowerCasedCommandSameAnswer` | conditionals.py:229-239 | for a recognised keyword, passing the command already lower-cased gives the same answer |
| `Matchers.ProcessCommandCaseInsensitive` | conditionals.py:229-239 | spellings with the same lower-case form get the same answer whenever the keyword is recognised |
| `Matchers.LoadWithoutArgumentIsUnknown` | conditionals.py:238-241 | "load" with no argument falls through to "Unknown command: " plus the original command |
| `Matchers.SaveIgnoresCase` | conditionals.py:234-237 | "SAVE" with "out.txt" saves to out.txt; "save" alone asks for a file name; "Load" alone is unknown |
| `Validators.AnyInClass` | conditionals.py:174-177 | the scan finds a character of the class exactly when one exists |
| `Validators.ValidatePasswordStrength` | conditionals.py:169-188 | a short password is always "too short"; otherwise the message is for the first missing class, in the order upper, lower, digit, special; "Strong password!" exactly when long enough and all four classes are present |
| `Validators.FirstUnmet` | conditionals.py:171-186 | the reference definition: the first requirement in a list that is not met, with every earlier one met |
| `Validators.PasswordReportsFirstUnmet` | conditionals.py:169-188 | the validator's message is the message for the first unmet requirement of the policy [length, upper, lower, digit, special] |
| `Validators.StrongIsPreservedByExtension` | conditionals.py:174-188 | appending characters to a strong password keeps it strong |
| `Validators.ValidateEmailCompact` | conditionals.py:195-199 | "Valid email" exactly when the address is longer than 5, does not start with '@', and has an '@' with no later '@' and a '.' after it; otherwise "Invalid email" |
| `Validators.EmailVerdictMatches` | conditionals.py:197-198 | the conjunction of tests, including `.` in `split("@")[-1]`, is equivalent to the positional description |
| `Validators.EmailExamples` | conditionals.py:195-199 | "user@domain.com" is valid; "@domain.com" and the five-character "a@b.c" are not |
| `Structural.AnalyseDataStructure` | conditionals.py:244-270 | the answer comes from a clause that accepts the value, every earlier clause rejects it, and the payload is the value the clause binds |
| `Structural.FirstAcceptingClause` | conditionals.py:246-270 | any accepting clause is at or after the chosen one, and it is the chosen one exactly when no earlier clause accepts |
| `Structural.MidLengthListsFallThrough` | conditionals.py:257-270 | lists of 3 to 6 items reach the "Unknown data type" fallback |
| `Structural.LongListsReportFirst` | conditionals.py:261-262 | lists of 7 or more items are long lists that report their first item |
| `Structural.TwoItemLists` | conditionals.py:263-264 | a two-item list reports both items in order |
| `Structural.PersonAllowsExtraKeys` | conditionals.py:267-268 | any dictionary with both "name" and "age" is a person, whatever other keys it has |
| `Structural.IncompletePersonIsUnknown` | conditionals.py:265-270 | a non-empty dictionary missing either key reaches the fallback |
| `Structural.Describe` | conditionals.py:247-270 | each message opens with its clause's fixed text; the four payload-free clauses are exactly that text; integer payloads, and a string's length before " characters", are printed in canonical decimal form and parse back to the value; the other payloads follow as shown, and the fallback adds the type name and "'>" |
| `Structural.IntegerMessagesDetermineValue` | conditionals.py:247-252 | two integers with the same message are equal |
| `Structural.StringMessagesDetermineLength` | conditionals.py:253-256 | two strings with the same message have the same length |
| `Structural.PositiveExample` | conditionals.py:247-248 | 42 is described as "Positive integer: 42" |
| `Structural.LongListExample` | conditionals.py:261-262 | [1..7] is described as "Long list starting with 1" |
| `Structural.PersonExample` | conditionals.py:267-268 | {"name": "Alice", "age": 25} is described as "Person: Alice, age 25" |
| `Structural.MidListExample` | conditionals.py:269-270 | [1, 2, 3] is described as "Unknown data type: <class 'list'>" |
| `Text.IntToString` | conditionals.py:41-43 | Python's `str()` of an integer: a leading '-' exactly for negatives, then digits in canonical form, with no leading zero except in "0" itself |
| `Text.IntToStringRoundTrip` | conditionals.py:41-43 | parsing the printed form of any integer gives the integer back |
| `Text.IntToStringInjective` | conditionals.py:60 | different integers print differently |
| `Text.ToLower` | conditionals.py:229 | lower-casing keeps the length, replaces each character by its lower-case form, and leaves no upper-case letter |
| `Text.Split` | conditionals.py:197 | `split` gives at least one piece, no piece contains the separator, and there is more than one piece exactly when the separator occurs |
| `Text.SplitJoinRoundTrip` | conditionals.py:197 | joining the pieces of a split with the separator gives back the string |
| `Text.SplitLastPart` | conditionals.py:197 | the last piece is the text after the last separator, or the whole string when there is none |

## Left out

- The `input()` retry loop of `check_temperature` (conditionals.py:3-9) is console I/O. `Thresholds.CheckTemperature` takes the parsed integer as its argument.
- The module-level `print` calls and the `run_*` demonstration drivers are print-only scaffolding. The drivers call `check_temperature(30)`, but that function takes no argument. A few of their calls are kept as example lemmas.
- `calculate_shipping`, `calculate_tax_compact`, `get_discount_rate`, `calculate_final_price_compact` and `format_price` are left out. They depend on floating-point arithmetic, `round(…, 2)` and `:.2f` formatting.
- `validate_input_compact` is left out. It applies `str()` to an arbitrary object and uses Unicode `strip()`.
- Unicode semantics of `isupper`, `islower`, `isdigit` and `lower()` are approximated by ASCII ranges. For example, Python's `'İ'.lower()` is two characters long.
- Default arguments become explicit parameters. `process_grade_compact(score)` is `ProcessGradeCompact(score, 0)`.
- The arguments of `process_command` after the command are modelled as strings. Python would format any object there with `str()`.
- `Structural.AnalyseDataStructure` does not model these Python quirks:
  - `bool` is a subclass of `int`;
  - `case 0` also matches `0.0`;
  - sequence patterns also match tuples and every other non-string sequence,
    such as `range(2)`, which Python reports as "Two-item list: 0, 1";
  - `Dict` keys are strings, so a dictionary with another key type, such as
    `{"name": "A", "age": 1, 0: "x"}`, can only be written as
    `Other("dict")`, while Python reports it as "Person: A, age 1";
  - the mapping pattern also matches mappings that are not `dict`, such as
    `UserDict({"name": "A", "age": 1})`.
  In the model such values are `Other` and reach the fallback, where Python
  would match an earlier clause.
- Python's `str()` of an arbitrary payload value in `analyse_data_structure`'s messages is a parameter `show` of `Structural.Describe`. Integers and lengths are printed exactly.
- In the fallback message, the type's `repr` is written as `<class 'name'>` with the type name treated as opaque.
