/**
 * The JavaScript string built-ins the NAVTEX parser relies on:
 * `String.prototype.trim`, `split(/\s+/)` and `toUpperCase`, over strings as
 * sequences of characters.
 */
module JsString {

  /** The characters matched by `\s` and removed by `trim`: WhiteSpace and LineTerminator of ECMAScript. */
  predicate IsSpace(c: char)
  {
    c == ' ' || c == '\t' || c == '\n' || c == '\U{000B}' || c == '\U{000C}' || c == '\r' ||
    c == '\U{00A0}' || c == '\U{1680}' || ('\U{2000}' <= c <= '\U{200A}') ||
    c == '\U{2028}' || c == '\U{2029}' || c == '\U{202F}' || c == '\U{205F}' ||
    c == '\U{3000}' || c == '\U{FEFF}'
  }

  predicate AllSpace(s: string)
  {
    forall i :: 0 <= i < |s| ==> IsSpace(s[i])
  }

  predicate NoSpace(s: string)
  {
    forall i :: 0 <= i < |s| ==> !IsSpace(s[i])
  }

  /** `trimStart`: drops the leading whitespace (`TrimStartShape` states what it keeps). */
  function TrimStart(s: string): (r: string)
    ensures |r| <= |s|
    ensures |s| > 0 && IsSpace(s[0]) ==> |r| < |s|
  {
    if |s| > 0 && IsSpace(s[0]) then TrimStart(s[1..]) else s
  }

  /** The index of the first character at or after `i` that is not whitespace, or `|s|`. */
  function SpaceEnd(s: string, i: nat): (j: nat)
    requires i <= |s|
    ensures i <= j <= |s|
    ensures j < |s| ==> !IsSpace(s[j])
    decreases |s| - i
  {
    if i < |s| && IsSpace(s[i]) then SpaceEnd(s, i + 1) else i
  }

  /** `SpaceEnd` skips only whitespace: everything from `i` up to it is whitespace. */
  lemma {:induction false} SpaceEndSkipsSpace(s: string, i: nat)
    requires i <= |s|
    ensures forall k :: i <= k < SpaceEnd(s, i) ==> IsSpace(s[k])
    decreases |s| - i
  {
    if i < |s| && IsSpace(s[i]) {
      SpaceEndSkipsSpace(s, i + 1);
    }
  }

  /** `trimStart` of a suffix keeps what follows the run of whitespace at its start. */
  lemma {:induction false} TrimStartSpaceEnd(s: string, i: nat)
    requires i <= |s|
    ensures TrimStart(s[i..]) == s[SpaceEnd(s, i)..]
    decreases |s| - i
  {
    if i < |s| && IsSpace(s[i]) {
      assert s[i..][1..] == s[i + 1..];
      TrimStartSpaceEnd(s, i + 1);
    }
  }

  /** `trimEnd`: drops the trailing whitespace (`TrimEndShape` states what it keeps). */
  function TrimEnd(s: string): (r: string)
    ensures |r| <= |s|
  {
    if |s| > 0 && IsSpace(s[|s| - 1]) then TrimEnd(s[..|s| - 1]) else s
  }

  /** `trim`: drops whitespace at both ends. */
  function Trim(s: string): string
  {
    TrimEnd(TrimStart(s))
  }

  /** The index of the first whitespace character of `s`, or `|s|` when there is none. */
  function FirstSpace(s: string): (i: nat)
    ensures i <= |s|
    ensures i < |s| ==> IsSpace(s[i])
  {
    if |s| == 0 || IsSpace(s[0]) then 0 else 1 + FirstSpace(s[1..])
  }

  /**
   * `s.split(/\s+/)`: the pieces between maximal runs of whitespace. A run at
   * either end yields an empty first or last piece, and the empty string
   * yields one empty piece, as in JavaScript.
   */
  function SplitOnWhitespace(s: string): (parts: seq<string>)
    ensures |parts| >= 1
    decreases |s|
  {
    var i := FirstSpace(s);
    if i == |s| then [s]
    else [s[..i]] + SplitOnWhitespace(TrimStart(s[i..]))
  }

  /** The words with `seps[k]` between `words[k]` and `words[k + 1]`: what splitting on whitespace undoes. */
  function JoinWith(words: seq<string>, seps: seq<string>): string
    requires |words| >= 1 && |seps| == |words| - 1
  {
    if |words| == 1 then words[0]
    else words[0] + seps[0] + JoinWith(words[1..], seps[1..])
  }

  /** Separators that are runs of whitespace, each at least one character long. */
  predicate Separators(seps: seq<string>)
  {
    forall k :: 0 <= k < |seps| ==> seps[k] != [] && AllSpace(seps[k])
  }

  /** `toUpperCase` of one character: ASCII letters, and U+017F LATIN SMALL LETTER LONG S, which upper-cases to `S`. */
  function UpperChar(c: char): char
  {
    if 'a' <= c <= 'z' then (c as int - 32) as char
    else if c == '\U{017F}' then 'S'
    else c
  }

  /** `toUpperCase`, character by character. */
  function ToUpper(s: string): (r: string)
    ensures |r| == |s|
  {
    if |s| == 0 then "" else [UpperChar(s[0])] + ToUpper(s[1..])
  }

  /** Upper-casing gives the one-letter string `[u]` exactly for the one-character strings that map to `u`. */
  lemma UpperIsLetter(s: string, u: char)
    ensures ToUpper(s) == [u] <==> (|s| == 1 && UpperChar(s[0]) == u)
  {
    if |s| == 1 {
      assert ToUpper(s) == [UpperChar(s[0])] + ToUpper([]);
    }
  }

  /** In the modelled mapping, an upper-case ASCII letter comes from itself, its lower-case form, and for `S` also from the long s. */
  lemma UpperCharInverse(c: char, u: char)
    requires 'A' <= u <= 'Z'
    ensures UpperChar(c) == u <==> (c == u || c == (u as int + 32) as char || (u == 'S' && c == '\U{017F}'))
  {
  }

  lemma {:induction false} TrimStartAllSpace(w: string, t: string)
    requires AllSpace(w)
    ensures TrimStart(w + t) == TrimStart(t)
  {
    if |w| > 0 {
      assert (w + t)[0] == w[0] && (w + t)[1..] == w[1..] + t;
      TrimStartAllSpace(w[1..], t);
    } else {
      assert w + t == t;
    }
  }

  lemma {:induction false} TrimEndAllSpace(t: string, w: string)
    requires AllSpace(w)
    ensures TrimEnd(t + w) == TrimEnd(t)
    decreases |w|
  {
    if |w| > 0 {
      assert (t + w)[..|t + w| - 1] == t + w[..|w| - 1];
      TrimEndAllSpace(t, w[..|w| - 1]);
    } else {
      assert t + w == t;
    }
  }

  /** Trimming `s + t` when `s` holds a non-space character trims only `s`. */
  lemma {:induction false} TrimStartAppend(s: string, t: string)
    requires !AllSpace(s)
    ensures TrimStart(s + t) == TrimStart(s) + t
  {
    if IsSpace(s[0]) {
      assert (s + t)[1..] == s[1..] + t;
      TrimStartAppend(s[1..], t);
    }
  }

  /** Whitespace added before or after a string does not change what `trim` returns. */
  lemma TrimIgnoresPadding(w1: string, s: string, w2: string)
    requires AllSpace(w1) && AllSpace(w2)
    ensures Trim(w1 + s + w2) == Trim(s)
  {
    assert w1 + s + w2 == w1 + (s + w2);
    TrimStartAllSpace(w1, s + w2);
    if AllSpace(s) {
      TrimStartAllSpace(s + w2, []);
      assert s + w2 + [] == s + w2;
      assert AllSpace(s + w2);
      TrimStartAllSpace(s, []);
      assert s + [] == s;
    } else {
      TrimStartAppend(s, w2);
      TrimEndAllSpace(TrimStart(s), w2);
    }
  }

  /**
   * Splitting words joined by runs of whitespace gives the words back: each
   * run, however long, is one separator, and no empty piece appears.
   */
  lemma {:induction false} SplitJoin(words: seq<string>, seps: seq<string>)
    requires |words| >= 1 && |seps| == |words| - 1
    requires forall k :: 0 <= k < |words| ==> words[k] != [] && NoSpace(words[k])
    requires Separators(seps)
    ensures SplitOnWhitespace(JoinWith(words, seps)) == words
  {
    if |words| == 1 {
      NoSpaceFirstSpace(words[0]);
    } else {
      var w, sep := words[0], seps[0];
      var rest := JoinWith(words[1..], seps[1..]);
      var s := w + (sep + rest);
      assert JoinWith(words, seps) == s;
      assert FirstSpace(s) == |w| by {
        NoSpaceFirstSpace(w);
        FirstSpaceAppend(w, sep + rest);
        assert IsSpace((sep + rest)[0]);
      }
      assert s[..|w|] == w && s[|w|..] == sep + rest;
      assert TrimStart(sep + rest) == rest by {
        TrimStartAllSpace(sep, rest);
        JoinStartsWithWord(words[1..], seps[1..]);
      }
      SplitJoin(words[1..], seps[1..]);
    }
  }

  /** A tab followed by a space, and two spaces, each separate one pair of words: three pieces, none empty. */
  lemma SplitRunExample()
    ensures SplitOnWhitespace("42\t 20.70  K") == ["42", "20.70", "K"]
  {
    var words, seps := ["42", "20.70", "K"], ["\t ", "  "];
    assert JoinWith(words, seps) == "42\t 20.70  K";
    SplitJoin(words, seps);
  }

  lemma {:induction false} NoSpaceFirstSpace(s: string)
    requires NoSpace(s)
    ensures FirstSpace(s) == |s|
  {
    if |s| > 0 {
      NoSpaceFirstSpace(s[1..]);
    }
  }

  lemma {:induction false} FirstSpaceAppend(w: string, t: string)
    requires NoSpace(w)
    ensures FirstSpace(w + t) == |w| + FirstSpace(t)
  {
    if |w| > 0 {
      assert (w + t)[1..] == w[1..] + t;
      FirstSpaceAppend(w[1..], t);
    } else {
      assert w + t == t;
    }
  }

  lemma {:induction false} JoinStartsWithWord(words: seq<string>, seps: seq<string>)
    requires |words| >= 1 && |seps| == |words| - 1
    requires words[0] != [] && NoSpace(words[0])
    ensures var s := JoinWith(words, seps); s != [] && !IsSpace(s[0])
  {
    if |words| > 1 {
      assert JoinWith(words, seps)[0] == words[0][0];
    }
  }

  lemma {:induction false} JoinEndsWithWord(words: seq<string>, seps: seq<string>)
    requires |words| >= 1 && |seps| == |words| - 1
    requires words[|words| - 1] != [] && NoSpace(words[|words| - 1])
    ensures var s := JoinWith(words, seps); s != [] && !IsSpace(s[|s| - 1])
  {
    if |words| > 1 {
      var rest := JoinWith(words[1..], seps[1..]);
      JoinEndsWithWord(words[1..], seps[1..]);
      assert JoinWith(words, seps) == (words[0] + seps[0]) + rest;
    }
  }

  /** Words joined by whitespace runs have nothing for `trim` to remove. */
  lemma TrimJoin(words: seq<string>, seps: seq<string>)
    requires |words| >= 1 && |seps| == |words| - 1
    requires forall k :: 0 <= k < |words| ==> words[k] != [] && NoSpace(words[k])
    ensures Trim(JoinWith(words, seps)) == JoinWith(words, seps)
  {
    JoinStartsWithWord(words, seps);
    JoinEndsWithWord(words, seps);
  }

  /** `trimStart` keeps a suffix of `s`, drops only whitespace, and stops at a non-space character. */
  lemma {:induction false} TrimStartShape(s: string)
    ensures var r := TrimStart(s);
      r == s[|s| - |r|..] && AllSpace(s[..|s| - |r|]) && (r == [] || !IsSpace(r[0]))
  {
    if |s| > 0 && IsSpace(s[0]) {
      TrimStartShape(s[1..]);
      var r := TrimStart(s);
      assert s[1..][..|s| - 1 - |r|] == s[1..|s| - |r|];
    }
  }

  /** `trimEnd` keeps a prefix of `s`, drops only whitespace, and stops at a non-space character. */
  lemma {:induction false} TrimEndShape(s: string)
    ensures var r := TrimEnd(s);
      r == s[..|r|] && AllSpace(s[|r|..]) && (r == [] || !IsSpace(r[|r| - 1]))
  {
    if |s| > 0 && IsSpace(s[|s| - 1]) {
      var t := s[..|s| - 1];
      TrimEndShape(t);
      var r := TrimEnd(s);
      assert r == TrimEnd(t);
      assert t[..|r|] == s[..|r|];
      assert t[|r|..] == s[|r|..|s| - 1];
      assert s[|r|..] == s[|r|..|s| - 1] + [s[|s| - 1]];
    }
  }

  /** `trim` keeps the middle of `s` between two runs of whitespace, and what it keeps starts and ends with a non-space character. */
  lemma TrimShape(s: string)
    ensures var r := Trim(s); var k := |s| - |TrimStart(s)|;
      k + |r| <= |s| && r == s[k..k + |r|] && AllSpace(s[..k]) && AllSpace(s[k + |r|..]) &&
      (r == [] || (!IsSpace(r[0]) && !IsSpace(r[|r| - 1])))
  {
    var t := TrimStart(s);
    var k := |s| - |t|;
    TrimStartShape(s);
    TrimEndShape(t);
    var r := Trim(s);
    assert s[k + |r|..] == t[|r|..];
  }

  /** `FirstSpace(s)` is preceded by no whitespace. */
  lemma {:induction false} FirstSpaceShape(s: string)
    ensures NoSpace(s[..FirstSpace(s)])
  {
    if |s| > 0 && !IsSpace(s[0]) {
      FirstSpaceShape(s[1..]);
      assert s[..FirstSpace(s)] == [s[0]] + s[1..][..FirstSpace(s[1..])];
    }
  }

  /** No piece of a split holds whitespace. */
  lemma {:induction false} SplitPartsNoSpace(s: string)
    ensures forall k :: 0 <= k < |SplitOnWhitespace(s)| ==> NoSpace(SplitOnWhitespace(s)[k])
    decreases |s|
  {
    var i := FirstSpace(s);
    FirstSpaceShape(s);
    if i < |s| {
      SplitPartsNoSpace(TrimStart(s[i..]));
    }
  }

  /** `toUpperCase` maps each character on its own. */
  lemma {:induction false} ToUpperChars(s: string)
    ensures forall i :: 0 <= i < |s| ==> ToUpper(s)[i] == UpperChar(s[i])
  {
    if |s| > 0 {
      ToUpperChars(s[1..]);
    }
  }
}
