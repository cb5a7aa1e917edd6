/** `validate_boolean` (daemon.c lines 260-304): the classifier of boolean
    literals in configuration values. */
module Booleans {
  import opened CharClass

  const TrueLiterals: set<string> := {"y", "yes", "true", "1"}
  const FalseLiterals: set<string> := {"n", "no", "false", "0"}

  /** The classification the doc comment of validate_boolean promises:
      1 for a true literal, 0 for a false literal, -1 otherwise, ignoring
      case. */
  function DocumentedBoolean(s: string): int
  {
    if Lower(s) in TrueLiterals then 1
    else if Lower(s) in FalseLiterals then 0
    else -1
  }

  /** validate_boolean as written: a switch on the length. The length-3
      branch answers 0 for "yes", and the length-4 and length-5 branches
      compare the third character against several letters at once, so they
      never succeed. */
  function ValidateBoolean(s: string): (r: int)
    ensures r == -1 || r == 0 || r == 1
    ensures r == 1 <==> |s| == 1 && (s[0] == 'y' || s[0] == 'Y' || s[0] == '1')
    ensures r == 0 <==> (|s| == 1 && (s[0] == 'n' || s[0] == 'N' || s[0] == '0'))
                        || Lower(s) == "no" || Lower(s) == "yes"
    ensures |s| == 0 || |s| >= 4 ==> r == -1
  {
    LiteralsByLength(s);
    if |s| == 1 then
      var c := s[0];
      if c == 'y' || c == 'Y' || c == '1' then 1
      else if c == 'n' || c == 'N' || c == '0' then 0
      else -1
    else if |s| == 2 then
      if ToLower(s[0]) == 'n' && ToLower(s[1]) == 'o' then 0 else -1
    else if |s| == 3 then
      if ToLower(s[0]) == 'y' && ToLower(s[1]) == 'e' && ToLower(s[2]) == 's' then 0 else -1
    else if |s| == 4 then
      var c0, c1, c2 := ToLower(s[0]), ToLower(s[1]), ToLower(s[2]);
      if c0 == 't' && c1 == 'r' && c2 == 'u' && c2 == 'e' then 1 else -1
    else if |s| == 5 then
      var c0, c1, c2 := ToLower(s[0]), ToLower(s[1]), ToLower(s[2]);
      if c0 == 'f' && c1 == 'a' && c2 == 'l' && c2 == 's' && c2 == 'e' then 0 else -1
    else -1
  }

  /** validate_boolean with its three slips repaired: "yes" answers 1 and
      the length-4 and length-5 branches compare every position. */
  function CorrectedValidateBoolean(s: string): int
  {
    if |s| == 1 then
      var c := s[0];
      if c == 'y' || c == 'Y' || c == '1' then 1
      else if c == 'n' || c == 'N' || c == '0' then 0
      else -1
    else if |s| == 2 then
      if ToLower(s[0]) == 'n' && ToLower(s[1]) == 'o' then 0 else -1
    else if |s| == 3 then
      if ToLower(s[0]) == 'y' && ToLower(s[1]) == 'e' && ToLower(s[2]) == 's' then 1 else -1
    else if |s| == 4 then
      if ToLower(s[0]) == 't' && ToLower(s[1]) == 'r' && ToLower(s[2]) == 'u' && ToLower(s[3]) == 'e' then 1 else -1
    else if |s| == 5 then
      if ToLower(s[0]) == 'f' && ToLower(s[1]) == 'a' && ToLower(s[2]) == 'l'
         && ToLower(s[3]) == 's' && ToLower(s[4]) == 'e' then 0 else -1
    else -1
  }

  /** Lower-casing agrees with a literal exactly when it agrees position by position. */
  lemma {:induction false} LowerIs(s: string, w: string)
    ensures Lower(s) == w <==> |s| == |w| && forall i :: 0 <= i < |s| ==> ToLower(s[i]) == w[i]
  {
    LowerChars(s);
    if |s| == |w| && forall i :: 0 <= i < |s| ==> ToLower(s[i]) == w[i] {
      assert forall i :: 0 <= i < |s| ==> Lower(s)[i] == w[i];
    }
  }

  /** The as-written classifier disagrees with its doc comment on exactly
      three words (in any case): "yes" gives 0, and "true" and "false" are
      rejected. */
  lemma {:induction false} ValidateBooleanDeviations(s: string)
    ensures ValidateBoolean(s) != DocumentedBoolean(s) <==> Lower(s) in {"yes", "true", "false"}
    ensures Lower(s) == "yes" ==> ValidateBoolean(s) == 0 && DocumentedBoolean(s) == 1
    ensures Lower(s) == "true" ==> ValidateBoolean(s) == -1 && DocumentedBoolean(s) == 1
    ensures Lower(s) == "false" ==> ValidateBoolean(s) == -1 && DocumentedBoolean(s) == 0
  {
    LiteralsByLength(s);
  }

  /** The repaired classifier is the documented one on every input. */
  lemma {:induction false} CorrectedValidateBooleanIsDocumented(s: string)
    ensures CorrectedValidateBoolean(s) == DocumentedBoolean(s)
  {
    LiteralsByLength(s);
  }

  /** Each literal of the doc comment, spelled out position by position. */
  lemma {:induction false} LiteralsByLength(s: string)
    ensures Lower(s) == "y" <==> |s| == 1 && ToLower(s[0]) == 'y'
    ensures Lower(s) == "1" <==> |s| == 1 && ToLower(s[0]) == '1'
    ensures Lower(s) == "n" <==> |s| == 1 && ToLower(s[0]) == 'n'
    ensures Lower(s) == "0" <==> |s| == 1 && ToLower(s[0]) == '0'
    ensures Lower(s) == "no" <==> |s| == 2 && ToLower(s[0]) == 'n' && ToLower(s[1]) == 'o'
    ensures Lower(s) == "yes" <==> |s| == 3 && ToLower(s[0]) == 'y' && ToLower(s[1]) == 'e' && ToLower(s[2]) == 's'
    ensures Lower(s) == "true" <==>
              (|s| == 4 && ToLower(s[0]) == 't' && ToLower(s[1]) == 'r'
               && ToLower(s[2]) == 'u' && ToLower(s[3]) == 'e')
    ensures Lower(s) == "false" <==>
              (|s| == 5 && ToLower(s[0]) == 'f' && ToLower(s[1]) == 'a'
               && ToLower(s[2]) == 'l' && ToLower(s[3]) == 's' && ToLower(s[4]) == 'e')
  {
    LowerIs(s, "y");
    LowerIs(s, "1");
    LowerIs(s, "n");
    LowerIs(s, "0");
    LowerIs(s, "no");
    LowerIs(s, "yes");
    LowerIs(s, "true");
    LowerIs(s, "false");
  }
}
