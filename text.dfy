/** The string operations the actors rely on: ASCII lower-casing and substring search. */
module Text {

  /** True when `c` is an ASCII upper-case letter. */
  predicate IsUpper(c: char) {
    'A' <= c <= 'Z'
  }

  /** The lower-case form of one character; only ASCII letters change. */
  function LowerChar(c: char): char {
    if IsUpper(c) then (c as int + 32) as char else c
  }

  /**
   * `s.lower()` on the ASCII range. Every character keeps its place, no
   * upper-case ASCII letter survives, and nothing else is touched.
   */
  function Lower(s: string): (r: string)
    ensures |r| == |s|
    ensures forall i | 0 <= i < |r| :: !IsUpper(r[i])
    ensures forall i | 0 <= i < |s| :: r[i] == s[i] || (IsUpper(s[i]) && r[i] as int == s[i] as int + 32)
  {
    if s == [] then [] else [LowerChar(s[0])] + Lower(s[1..])
  }

  /**
   * The test `token.lower() == 'all'`: it holds exactly for the eight
   * spellings of "all" in upper and lower case.
   */
  lemma {:induction false} LowerIsAll(s: string)
    ensures Lower(s) == "all" <==>
      |s| == 3 && s[0] in "aA" && s[1] in "lL" && s[2] in "lL"
  {
    if |s| == 3 {
      var r := Lower(s);
      assert r == [LowerChar(s[0]), LowerChar(s[1]), LowerChar(s[2])] by {
        assert r[0] == LowerChar(s[0]);
        assert Lower(s[1..]) == [LowerChar(s[1])] + Lower(s[2..]);
        assert Lower(s[2..]) == [LowerChar(s[2])] + Lower(s[3..]);
      }
    }
  }

  /** `sub` starts at index `i` of `s`. */
  ghost predicate OccursAt(s: string, sub: string, i: int) {
    0 <= i && i + |sub| <= |s| && s[i..i + |sub|] == sub
  }

  /** Python's `sub in s`: `sub` occurs somewhere in `s` (the empty string occurs everywhere). */
  function Contains(s: string, sub: string): (b: bool)
    ensures b <==> exists i :: OccursAt(s, sub, i)
    decreases |s|
  {
    if |sub| > |s| then
      false
    else if s[..|sub|] == sub then
      assert OccursAt(s, sub, 0);
      true
    else
      var b := Contains(s[1..], sub);
      assert b ==> exists i :: OccursAt(s, sub, i) by {
        if b {
          var j :| OccursAt(s[1..], sub, j);
          assert s[1..][j..j + |sub|] == s[j + 1..j + 1 + |sub|];
          assert OccursAt(s, sub, j + 1);
        }
      }
      assert (exists i :: OccursAt(s, sub, i)) ==> b by {
        if exists i :: OccursAt(s, sub, i) {
          var i :| OccursAt(s, sub, i);
          assert i != 0;
          assert s[1..][i - 1..i - 1 + |sub|] == s[i..i + |sub|];
          assert OccursAt(s[1..], sub, i - 1);
        }
      }
      b
  }
}
