/** Python's whitespace and str.strip. */
module Text {

  /** The characters str.isspace accepts one by one, which strip() removes. */
  predicate IsSpace(c: char) {
    var n := c as int;
    || 0x09 <= n <= 0x0D || 0x1C <= n <= 0x20 || n == 0x85 || n == 0xA0 || n == 0x1680
    || 0x2000 <= n <= 0x200A || n == 0x2028 || n == 0x2029 || n == 0x202F || n == 0x205F || n == 0x3000
  }

  function StripLeft(s: string): string {
    if s != "" && IsSpace(s[0]) then StripLeft(s[1..]) else s
  }

  function StripRight(s: string): string {
    if s != "" && IsSpace(s[|s| - 1]) then StripRight(s[..|s| - 1]) else s
  }

  function Strip(s: string): string {
    StripRight(StripLeft(s))
  }

  /** What strip() leaves is empty iff every character was whitespace. */
  lemma {:induction false} StripEmptyIff(s: string)
    ensures Strip(s) == "" <==> forall i | 0 <= i < |s| :: IsSpace(s[i])
  {
    StripLeftEmptyIff(s);
    StripRightKeepsSolid(StripLeft(s));
  }

  lemma {:induction false} StripLeftEmptyIff(s: string)
    ensures StripLeft(s) == "" <==> forall i | 0 <= i < |s| :: IsSpace(s[i])
    ensures StripLeft(s) != "" ==> !IsSpace(StripLeft(s)[0])
  {
    if s != "" && IsSpace(s[0]) {
      StripLeftEmptyIff(s[1..]);
      assert forall i | 1 <= i < |s| :: s[i] == s[1..][i - 1];
    }
  }

  lemma {:induction false} StripRightKeepsSolid(s: string)
    ensures s != "" && !IsSpace(s[0]) ==> StripRight(s) != "" && StripRight(s)[0] == s[0]
  {
    if s != "" && IsSpace(s[|s| - 1]) {
      StripRightKeepsSolid(s[..|s| - 1]);
    }
  }

  predicate AllSpace(s: string) {
    forall i | 0 <= i < |s| :: IsSpace(s[i])
  }

  lemma {:induction false} StripLeftCuts(s: string) returns (cut: string)
    ensures s == cut + StripLeft(s) && AllSpace(cut)
  {
    hide IsSpace;
    if s != "" && IsSpace(s[0]) {
      cut := StripLeftCuts(s[1..]);
      cut := [s[0]] + cut;
    } else {
      cut := "";
    }
  }

  lemma {:induction false} StripRightCuts(s: string) returns (cut: string)
    ensures s == StripRight(s) + cut && AllSpace(cut)
    ensures StripRight(s) != "" ==> !IsSpace(StripRight(s)[|StripRight(s)| - 1])
  {
    hide IsSpace;
    if s != "" && IsSpace(s[|s| - 1]) {
      cut := StripRightCuts(s[..|s| - 1]);
      cut := cut + [s[|s| - 1]];
    } else {
      cut := "";
    }
  }

  /** strip() cuts whitespace off both ends, all of it and nothing else. */
  lemma StripCutsSpace(s: string)
    ensures exists a, b :: s == a + Strip(s) + b && AllSpace(a) && AllSpace(b)
    ensures Strip(s) != "" ==> !IsSpace(Strip(s)[0]) && !IsSpace(Strip(s)[|Strip(s)| - 1])
  {
    var a := StripLeftCuts(s);
    var b := StripRightCuts(StripLeft(s));
    StripLeftEmptyIff(s);
    StripRightKeepsSolid(StripLeft(s));
    assert a + (Strip(s) + b) == a + Strip(s) + b;
  }

  /** Blanks, tabs, line breaks and the ideographic space are whitespace; what prints in ASCII is not. */
  lemma SpaceTable(c: char)
    ensures c in {' ', '\t', '\n', '\r', '\U{3000}'} ==> IsSpace(c)
    ensures '!' <= c <= '~' ==> !IsSpace(c)
  {
  }
}
