/** The Python string methods the map parser relies on: strip and splitlines. */
module Text {

  /**
   * The characters Python's str.strip() removes when called without an argument, restricted
   * to ASCII: space, tab, line feed, carriage return, vertical tab, form feed and the four
   * information separators.
   */
  predicate IsSpace(ch: char)
  {
    ch == ' ' || ch == '\t' || ch == '\n' || ch == '\r' || ch == '\U{0B}' || ch == '\U{0C}' ||
    ('\U{1C}' <= ch <= '\U{1F}')
  }

  /** The argument of strip(' '). */
  predicate IsBlank(ch: char)
  {
    ch == ' '
  }

  /** The index of the first character of s that is not dropped. */
  function TrimStart(s: string, drop: char -> bool): (i: nat)
    ensures i <= |s|
    ensures forall k :: 0 <= k < i ==> drop(s[k])
    ensures i < |s| ==> !drop(s[i])
  {
    if |s| == 0 || !drop(s[0]) then 0 else 1 + TrimStart(s[1..], drop)
  }

  /** One past the index of the last character of s from i on that is not dropped. */
  function TrimEnd(s: string, drop: char -> bool, i: nat): (j: nat)
    requires i <= |s|
    ensures i <= j <= |s|
    ensures forall k :: j <= k < |s| ==> drop(s[k])
    ensures j > i ==> !drop(s[j - 1])
    decreases |s|
  {
    if |s| == i || !drop(s[|s| - 1]) then |s| else TrimEnd(s[..|s| - 1], drop, i)
  }

  /**
   * s.strip(chars) with drop telling which characters are in chars: the middle of s left
   * once dropped characters are cut from both ends, and no more than those.
   */
  function Trim(s: string, drop: char -> bool): (r: string)
    ensures |r| > 0 ==> !drop(r[0]) && !drop(r[|r| - 1])
    ensures exists i, j ::
              && 0 <= i <= j <= |s| && r == s[i..j]
              && (forall k :: 0 <= k < i ==> drop(s[k]))
              && (forall k :: j <= k < |s| ==> drop(s[k]))
  {
    var i := TrimStart(s, drop);
    var j := TrimEnd(s, drop, i);
    s[i..j]
  }

  function Strip(s: string): string
  {
    Trim(s, IsSpace)
  }

  /** The pieces of s between line feeds; there is always one more piece than line feeds. */
  function Split(s: string): (r: seq<string>)
    ensures |r| >= 1
    ensures forall i :: 0 <= i < |r| ==> '\n' !in r[i]
  {
    if |s| == 0 then [""]
    else
      var rest := Split(s[1..]);
      if s[0] == '\n' then [""] + rest else [[s[0]] + rest[0]] + rest[1..]
  }

  /** The pieces joined back with line feeds. */
  function JoinLines(pieces: seq<string>): string
    requires |pieces| >= 1
  {
    if |pieces| == 1 then pieces[0] else pieces[0] + "\n" + JoinLines(pieces[1..])
  }

  /** Splitting on line feeds loses nothing: joining the pieces gives s back. */
  lemma {:induction false} SplitJoins(s: string)
    ensures JoinLines(Split(s)) == s
  {
    if |s| > 0 {
      var rest := Split(s[1..]);
      SplitJoins(s[1..]);
      if s[0] == '\n' {
        assert ([""] + rest)[1..] == rest;
        assert s == "\n" + s[1..];
      } else {
        var r := [[s[0]] + rest[0]] + rest[1..];
        if |rest| == 1 {
          assert s == [s[0]] + s[1..];
        } else {
          assert r[1..] == rest[1..];
          assert JoinLines(rest) == rest[0] + "\n" + JoinLines(rest[1..]);
          assert s == [s[0]] + s[1..];
        }
      }
    }
  }

  /**
   * s.splitlines() for line feeds: the lines between line feeds, where a final line feed
   * ends the last line instead of starting an empty one, and the empty string has no lines.
   */
  function SplitLines(s: string): (r: seq<string>)
    ensures forall i :: 0 <= i < |r| ==> '\n' !in r[i]
    ensures |s| > 0 ==> |r| >= 1
  {
    if |s| == 0 then []
    else if s[|s| - 1] == '\n' then Split(s[..|s| - 1])
    else Split(s)
  }

  /** Joining the lines with line feeds, and adding back a final one, gives s back. */
  lemma SplitLinesJoins(s: string)
    requires |s| > 0
    ensures s == JoinLines(SplitLines(s)) + (if s[|s| - 1] == '\n' then "\n" else "")
  {
    if s[|s| - 1] == '\n' {
      SplitJoins(s[..|s| - 1]);
      assert s == s[..|s| - 1] + "\n";
    } else {
      SplitJoins(s);
    }
  }
}
