# Substitution cipher — a Dafny model

A model of `SubstitutionCipher.java`, a command-line Caesar cipher: every
ASCII letter of a text file is moved a fixed number of places along its own
alphabet (`A`–`Z` or `a`–`z`), everything else is copied, and the result is
written line by line to a second file. The model covers three pieces of the
program:

- `Shifter` (`shifter.dfy`): the method `shift` as an imperative loop that
  appends one character per input character, proved equal to a reference
  rotation `Rotate` (letter `k` places on, mod 26, within its case). A second
  specification, `ShiftCharAsWritten`, follows the code's own branches
  (`indexOf`, the one-time wrap correction, `charAt`) and returns `None` where
  `charAt` would throw; lemmas pin down exactly when it throws and show that
  otherwise it computes the rotation.
- `Pipeline` (`pipeline.dfy`): the read/write loop of `transformFile` over a
  file given as its sequence of lines, with `Scanner.hasNext()` as "a
  non-whitespace character remains", and the outcome of the two file opens as
  parameters.
- `Menu` (`menu.dfy`): the retry loop of `getChoice` over the sequence of
  tokens the console would deliver.
- `Wrappers` (`wrappers.dfy`): the `Option` type used for "the code throws".

Two behaviours of the code are worth stating up front:

- The Javadoc of `shift` promises a shift "to the right" by the given amount,
  and "to the left" for a negative one, with no bound on the amount. The code
  corrects the index once (subtract 26 above 25, add 26 below 0), so
  `charAt` is given a valid index only when a letter's place plus the shift
  lies in [-26, 51]; the shift that is safe for every letter is
  `-26 <= shift <= 26`. `Shift` and `TransformLines` require that range,
  `TransformFile` requires it only on the path that shifts lines, and
  `ShiftCharFails` states the exact failing inputs (for instance `"A"` with
  shift -27, or `"Z"` with 27).
- The comment on `getChoice` calls every value longer than one character
  invalid; the code looks only at the first character, so `"quit"` is
  accepted as `Q` (`Menu.AcceptsLongTokens`).

## Model

| member | source | states |
|---|---|---|
| Shifter.Shift | SubstitutionCipher.java:36-70 | for `-26 <= shift <= 26` the result is `Rotate(input, shift)`: same length, character `i` depends only on `input[i]`, and at every position it is what the code's branches compute without throwing |
| Shifter.AlphabetSpelling | SubstitutionCipher.java:16-17 | the alphabet constants are exactly "ABC…Z" and "abc…z" |
| Shifter.LettersFrom | SubstitutionCipher.java:16-17 | each alphabet has 26 characters and holds exactly the letters of its case |
| Shifter.IndexOf | SubstitutionCipher.java:40-41 | `indexOf` gives -1 exactly when the character is absent, otherwise the index of its first occurrence |
| Shifter.AlphabetIndexOf | SubstitutionCipher.java:52-53 | `UPPERCASE.indexOf(c)` is `c`'s place for an upper-case letter and -1 for everything else; likewise for `LOWERCASE` |
| Shifter.Wrap | SubstitutionCipher.java:42-48 | the single wrap correction yields an index in 0..25 exactly when `startIndex + shift` lies in [-26, 51], and there it equals the residue mod 26 |
| Shifter.ShiftCharBranches | SubstitutionCipher.java:39-66 | the three branches of the loop body are chosen by case: upper-case letter, lower-case letter, anything else copied |
| Shifter.CharAtWrapped | SubstitutionCipher.java:49-50 | `charAt` at the wrapped index, when it does not throw, yields a letter of the alphabet it reads |
| Shifter.ShiftCharAsWritten | SubstitutionCipher.java:39-66 | the loop body as written fails only on letters, copies every non-letter, and keeps the case of every letter it shifts |
| Shifter.CharAtWrappedMeaning | SubstitutionCipher.java:49-50 | `charAt` after the wrap fails exactly outside [-26, 51] and otherwise picks the letter `shift` places on, mod 26 |
| Shifter.ShiftCharFails | SubstitutionCipher.java:40-63 | the code throws on a character exactly when it is a letter whose place plus the shift is outside [-26, 51] |
| Shifter.ShiftCharRotates | SubstitutionCipher.java:40-63 | whenever the code does not throw on a character it produces that character's mod-26 rotation |
| Shifter.ShiftCharLargeShifts | SubstitutionCipher.java:42-49 | beyond [-26, 26] the outcome depends on the letter: "A" by 27 gives "B", "Z" by 27 and "A" by -27 throw, a digit is copied whatever the shift |
| Shifter.ShiftCharSafe | SubstitutionCipher.java:39-66 | for `-26 <= shift <= 26` no character makes the code throw, and each gets its rotation |
| Shifter.RotateCharCases | SubstitutionCipher.java:40-66 | rotation keeps a letter's case, moves its place by `k` mod 26, and leaves digits, punctuation, whitespace and non-ASCII characters unchanged |
| Shifter.RotateCharRoundTrip | SubstitutionCipher.java:42-49 | for `-26 <= k <= 26`, rotating a character by `k` and then by `-k` gives it back |
| Shifter.RotateRoundTrip | SubstitutionCipher.java:36-70 | for `-26 <= k <= 26`, `shift(shift(s, k), -k) == s` |
| Shifter.RotateIdentity | SubstitutionCipher.java:42-48 | shifting by 0, 26 or -26 returns the input unchanged |
| Shifter.RotateDocExamples | SubstitutionCipher.java:22-25 | `shift("ABC", 3) == "DEF"` and `shift("ABC", -3) == "XYZ"` |
| Shifter.RotateWrapExample | SubstitutionCipher.java:55-56 | letters at the end of the alphabet wrap to its start: "yz" by 3 is "bc" |
| Shifter.RotateMixedExample | SubstitutionCipher.java:20-26 | case is preserved and non-letters pass through: "AbC" by 1 is "BcD", "Hello, World! 123" by 3 is "Khoor, Zruog! 123" |
| Shifter.RotateSentenceExample | SubstitutionCipher.java:36-70 | "Attack at dawn" by 5 is "Fyyfhp fy ifbs" |
| Pipeline.HasNext | SubstitutionCipher.java:145 | `hasNext()` holds exactly when some remaining line has a non-whitespace character (a character `Character.isWhitespace` rejects) |
| Pipeline.HasNextWhileReading | SubstitutionCipher.java:145-146 | the loop condition holds exactly while fewer lines than `LinesRead` have been read |
| Pipeline.LinesRead | SubstitutionCipher.java:145-146 | the loop reads lines up to and including the last one holding a non-whitespace character, and no further |
| Pipeline.TransformedLines | SubstitutionCipher.java:145-149 | the lines written are the shifted lines read, in input order, one per line read; every unread line is whitespace only; if the last line holds text, every line is written |
| Pipeline.TransformLines | SubstitutionCipher.java:145-149 | the loop writes exactly `Transformed(lines, shift)` |
| Pipeline.TransformedThreeLines | SubstitutionCipher.java:145-149 | a three-line file with a blank middle line gives three shifted lines |
| Pipeline.TransformedTrailingBlank | SubstitutionCipher.java:145 | a whitespace-only last line after the text is not read, so not written |
| Pipeline.TransformFile | SubstitutionCipher.java:135-157 | returns true exactly when both files open, whatever the shift; on failure the output file is untouched; on success it holds the transformed lines, or nothing when both names denote one file (the writer empties it before the first read) |
| Menu.ToUpper | SubstitutionCipher.java:175 | upper-casing yields `E`, `D` or `Q` exactly for those letters in either case, and maps each case of them to the upper-case letter |
| Menu.Accepts | SubstitutionCipher.java:178 | a token is accepted exactly when its first character is one of e, d, q in either case |
| Menu.AcceptsLongTokens | SubstitutionCipher.java:184-185 | only the first character is examined: "quit" and "Delete" are accepted, "x" and "1e" are not |
| Menu.GetChoice | SubstitutionCipher.java:173-189 | the result is `E`, `D` or `Q`, the upper-cased first character of the first accepted token, every earlier token rejected; `None` only when every token is rejected |

## Left out

- Shifter.Shift: requires `-26 <= shift <= 26`, the range safe for every letter; for a larger shift the code still succeeds on strings whose letters all keep their place plus the shift in [-26, 51] (characterised per character by `ShiftCharFails`), which the method does not cover.
- Pipeline.TransformLines: requires the same range, as does Pipeline.TransformFile on the path that reads lines; outside it a letter can raise StringIndexOutOfBoundsException, which `transformFile` does not catch, so the exception, the unclosed writer and the partial output are not modelled.
- Pipeline.TransformFile: whether the two names denote one file is a parameter, not derived from the paths; the diagnostic printed on failure is not modelled; the scanner left open when the input opens but the output does not is not modelled; a file is its sequence of lines, so line terminators and the splitting done by `nextLine` are not modelled.
- Opening, creating and closing files, `Scanner` and `PrintWriter` themselves: Java I/O, replaced by the parameters of `TransformFile`.
- `promptForStringIn`, `promptForStringOut`, `displayMenu` and `main`: console prompting and printing.
- Menu.GetChoice: `Character.toUpperCase` is modelled on ASCII letters only; no other character upper-cases to `E`, `D` or `Q`, so which tokens are accepted is unaffected.
- Java `char` is a UTF-16 code unit, a Dafny `char` a Unicode scalar value; a character outside the Basic Multilingual Plane is copied unchanged either way.
