/**
 * `SubstitutionCipher.getChoice`: read tokens until one is a valid menu
 * choice. Console input is given as the sequence of tokens the scanner
 * would return, each non-empty.
 */
module Menu {

  import opened Wrappers

  /**
   * `Character.toUpperCase`, on the ASCII letters: it yields a menu letter
   * exactly for that letter in either case.
   */
  function ToUpper(c: char): (u: char)
    ensures u in "EDQ" <==> c in "EDQedq"
    ensures c in "Ee" ==> u == 'E'
    ensures c in "Dd" ==> u == 'D'
    ensures c in "Qq" ==> u == 'Q'
  {
    if 'a' <= c <= 'z' then (c as int - 'a' as int + 'A' as int) as char else c
  }

  /** The three menu letters the loop exits on. */
  predicate IsChoice(c: char)
  {
    c == 'E' || c == 'D' || c == 'Q'
  }

  /** The test applied to a token: its first character, upper-cased, is a menu letter. */
  predicate Accepts(token: string): (b: bool)
    requires |token| > 0
    ensures b <==> token[0] in "EDQedq"
  {
    IsChoice(ToUpper(token[0]))
  }

  /**
   * Only the first character is looked at, so a longer token such as
   * "quit" or "Delete" is accepted as that letter.
   */
  lemma AcceptsLongTokens()
    ensures Accepts("quit") && ToUpper("quit"[0]) == 'Q'
    ensures Accepts("Delete") && ToUpper("Delete"[0]) == 'D'
    ensures !Accepts("x") && !Accepts("1e")
  {
  }

  /**
   * The retry loop of `getChoice`: take a token, upper-case its first
   * character, and try again while it is not a menu letter. The result is
   * the letter from the first accepted token, with the number of tokens
   * consumed; `None` where the tokens run out (the scanner would throw).
   */
  method GetChoice(tokens: seq<string>) returns (choice: Option<char>, used: nat)
    requires forall i :: 0 <= i < |tokens| ==> |tokens[i]| > 0
    ensures used <= |tokens|
    ensures forall j :: 0 <= j < used - 1 ==> !Accepts(tokens[j])
    ensures choice.Some? ==> used > 0 && Accepts(tokens[used - 1]) && choice.value == ToUpper(tokens[used - 1][0])
    ensures choice.Some? ==> IsChoice(choice.value)
    ensures choice.None? ==> used == |tokens| && forall j :: 0 <= j < |tokens| ==> !Accepts(tokens[j])
  {
    if |tokens| == 0 {
      return None, 0;
    }
    var c := ToUpper(tokens[0][0]);
    used := 1;
    var goodChoice := 0;
    while goodChoice == 0
      invariant 1 <= used <= |tokens|
      invariant goodChoice == 0 || goodChoice == 1
      invariant c == ToUpper(tokens[used - 1][0])
      invariant goodChoice == 1 ==> IsChoice(c)
      invariant forall j :: 0 <= j < used - 1 ==> !Accepts(tokens[j])
      decreases |tokens| - used, 1 - goodChoice
    {
      if IsChoice(c) {
        goodChoice := 1;
      } else {
        if used == |tokens| {
          return None, used;
        }
        c := ToUpper(tokens[used][0]);
        used := used + 1;
      }
    }
    choice := Some(c);
  }
}
