/** The string primitives the chunker and the request handler rely on:
    Python's whitespace test, `str.split()` with no argument, `" ".join(...)`
    and `str.strip()` with no argument. */
module Text {

  /** Python's `str.isspace()` for one code point: the separators that
      `str.split()` and `str.strip()` use when called without arguments. */
  predicate IsSpace(c: char) {
    var n := c as int;
    || (0x09 <= n <= 0x0D) || (0x1C <= n <= 0x20)
    || n == 0x85 || n == 0xA0 || n == 0x1680
    || (0x2000 <= n <= 0x200A)
    || n == 0x2028 || n == 0x2029 || n == 0x202F || n == 0x205F || n == 0x3000
  }

  /** Every character of `s` is whitespace (the empty string included). */
  predicate IsBlank(s: string) {
    forall i :: 0 <= i < |s| ==> IsSpace(s[i])
  }

  /** A word as `str.split()` produces it: non-empty, no whitespace. */
  predicate IsWord(w: string) {
    w != [] && forall i :: 0 <= i < |w| ==> !IsSpace(w[i])
  }

  /** The length of the run of non-whitespace characters that starts `s`. */
  function WordLength(s: string): (n: nat)
    ensures n <= |s|
    ensures forall i :: 0 <= i < n ==> !IsSpace(s[i])
    ensures n == |s| || IsSpace(s[n])
  {
    if s == [] || IsSpace(s[0]) then 0 else 1 + WordLength(s[1..])
  }

  /** `s.split()`: the maximal runs of non-whitespace characters, in order. */
  function Words(s: string): (ws: seq<string>)
    ensures forall k :: 0 <= k < |ws| ==> IsWord(ws[k])
    ensures ws == [] <==> IsBlank(s)
    decreases |s|
  {
    if s == [] then []
    else if IsSpace(s[0]) then Words(s[1..])
    else
      var n := WordLength(s);
      assert s[..n] == s[..n][..1] + s[..n][1..];
      [s[..n]] + Words(s[n..])
  }

  /** `" ".join(ws)`. */
  function Join(ws: seq<string>): (s: string)
  {
    if ws == [] then ""
    else if |ws| == 1 then ws[0]
    else ws[0] + " " + Join(ws[1..])
  }

  /** `s.strip()`: `s` without its leading and trailing whitespace. */
  function Strip(s: string): (r: string)
    ensures |r| <= |s|
    ensures exists i, j :: && 0 <= i <= j <= |s| && r == s[i..j]
                           && (forall k :: 0 <= k < i ==> IsSpace(s[k]))
                           && (forall k :: j <= k < |s| ==> IsSpace(s[k]))
    ensures r == [] || (!IsSpace(r[0]) && !IsSpace(r[|r| - 1]))
    ensures r == [] <==> IsBlank(s)
  {
    var i := LeadingSpaces(s);
    if i == |s| then
      assert s[i..i] == [];
      []
    else
      var j := |s| - TrailingSpaces(s);
      assert !IsSpace(s[i]);
      s[i..j]
  }

  /** How many whitespace characters `s` starts with. */
  function LeadingSpaces(s: string): (n: nat)
    ensures n <= |s|
    ensures forall k :: 0 <= k < n ==> IsSpace(s[k])
    ensures n == |s| || !IsSpace(s[n])
  {
    if s == [] || !IsSpace(s[0]) then 0 else 1 + LeadingSpaces(s[1..])
  }

  /** How many whitespace characters `s` ends with. */
  function TrailingSpaces(s: string): (n: nat)
    ensures n <= |s|
    ensures forall k :: |s| - n <= k < |s| ==> IsSpace(s[k])
    ensures n == |s| || !IsSpace(s[|s| - n - 1])
  {
    if s == [] || !IsSpace(s[|s| - 1]) then 0 else 1 + TrailingSpaces(s[..|s| - 1])
  }

  /** A word followed by whitespace (or by nothing) is split off whole. */
  lemma WordsAfterWord(w: string, t: string)
    requires IsWord(w)
    requires t == [] || IsSpace(t[0])
    ensures Words(w + t) == [w] + Words(t)
  {
    var s := w + t;
    assert s[..|w|] == w && s[|w|..] == t;
  }

  /** Leading whitespace contributes no word. */
  lemma WordsAfterSpace(t: string)
    ensures Words(" " + t) == Words(t)
  {
    assert (" " + t)[1..] == t;
  }

  /** Splitting what `Join` produced gives back the words: `" ".join` and
      `split()` are inverse on lists of words. */
  lemma {:induction false} WordsOfJoin(ws: seq<string>)
    requires forall k :: 0 <= k < |ws| ==> IsWord(ws[k])
    ensures Words(Join(ws)) == ws
  {
    if |ws| == 1 {
      WordsAfterWord(ws[0], "");
      assert ws[0] + "" == ws[0];
    } else if |ws| > 1 {
      var rest := Join(ws[1..]);
      assert Join(ws) == ws[0] + (" " + rest);
      calc {
        Words(Join(ws));
        { WordsAfterWord(ws[0], " " + rest); }
        [ws[0]] + Words(" " + rest);
        { WordsAfterSpace(rest); }
        [ws[0]] + Words(rest);
        { WordsOfJoin(ws[1..]); }
        [ws[0]] + ws[1..];
      }
      assert ws == [ws[0]] + ws[1..];
    }
  }

  /** The text `Join` produces from words is in canonical form: it starts with
      a non-whitespace character, and every whitespace character in it is a
      single ASCII space with a non-whitespace character right after it (so
      there are no leading, trailing or doubled spaces). */
  lemma {:induction false} JoinIsCanonical(ws: seq<string>)
    requires ws != []
    requires forall k :: 0 <= k < |ws| ==> IsWord(ws[k])
    ensures var s := Join(ws);
      && s != [] && !IsSpace(s[0])
      && forall i :: 0 <= i < |s| && IsSpace(s[i]) ==> s[i] == ' ' && i + 1 < |s| && !IsSpace(s[i + 1])
  {
    if |ws| > 1 {
      JoinIsCanonical(ws[1..]);
      var w, rest := ws[0], Join(ws[1..]);
      var s := Join(ws);
      assert s == w + " " + rest;
      forall i | 0 <= i < |s| && IsSpace(s[i])
        ensures s[i] == ' ' && i + 1 < |s| && !IsSpace(s[i + 1])
      {
        if i == |w| {
          assert s[i + 1] == rest[0];
        } else if i > |w| {
          assert s[i] == rest[i - |w| - 1];
          assert i + 1 < |s| ==> s[i + 1] == rest[i - |w|];
        }
      }
    }
  }

  /** The length of a joined run of words. */
  lemma {:induction false} JoinLength(ws: seq<string>)
    requires |ws| >= 2
    ensures |Join(ws)| == |Join(ws[..|ws| - 1])| + 1 + |ws[|ws| - 1]|
  {
    if |ws| > 2 {
      JoinLength(ws[1..]);
      assert ws[1..][..|ws| - 2] == ws[..|ws| - 1][1..];
    }
  }
}
