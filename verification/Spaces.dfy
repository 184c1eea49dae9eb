/** The white space of the host language's trimming and regular expressions. */
module Spaces {
  /** The class `\s`, as ranges of code points. */
  const SPACES: seq<(int, int)> := [
    (0x09, 0x0D), (0x20, 0x20), (0xA0, 0xA0), (0x1680, 0x1680), (0x2000, 0x200A), (0x2028, 0x2029),
    (0x202F, 0x202F), (0x205F, 0x205F), (0x3000, 0x3000), (0xFEFF, 0xFEFF)]

  predicate InRanges(u: int, ranges: seq<(int, int)>) {
    ranges != [] && (ranges[0].0 <= u <= ranges[0].1 || InRanges(u, ranges[1..]))
  }

  predicate IsSpace(c: char) {
    InRanges(c as int, SPACES)
  }

  lemma {:induction false} InRangesAt(u: int, ranges: seq<(int, int)>)
    ensures InRanges(u, ranges) <==> exists i :: 0 <= i < |ranges| && ranges[i].0 <= u <= ranges[i].1
  {
    if ranges != [] {
      InRangesAt(u, ranges[1..]);
      if i :| 0 <= i < |ranges| && ranges[i].0 <= u <= ranges[i].1 {
        assert i > 0 ==> ranges[1..][i - 1] == ranges[i];
      }
      if i :| 0 <= i < |ranges[1..]| && ranges[1..][i].0 <= u <= ranges[1..][i].1 {
        assert ranges[i + 1] == ranges[1..][i];
      }
    }
  }

  /** The characters of the class: the ASCII ones, the no-break spaces, those of typesetting, and the line separators. */
  lemma {:induction false} SpacesAre(c: char)
    ensures IsSpace(c) <==>
      var u := c as int;
      0x09 <= u <= 0x0D || u == 0x20 || u == 0xA0 || u == 0x1680 || 0x2000 <= u <= 0x200A || u == 0x2028 || u == 0x2029
      || u == 0x202F || u == 0x205F || u == 0x3000 || u == 0xFEFF
  {
    var u := c as int;
    InRangesAt(u, SPACES);
    assert |SPACES| == 10;
    assert SPACES[0] == (0x09, 0x0D) && SPACES[1] == (0x20, 0x20) && SPACES[2] == (0xA0, 0xA0) && SPACES[3] == (0x1680, 0x1680);
    assert SPACES[4] == (0x2000, 0x200A) && SPACES[5] == (0x2028, 0x2029) && SPACES[6] == (0x202F, 0x202F);
    assert SPACES[7] == (0x205F, 0x205F) && SPACES[8] == (0x3000, 0x3000) && SPACES[9] == (0xFEFF, 0xFEFF);
  }
}
