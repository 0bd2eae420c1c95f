/**
 * NAVTEX coordinates: `parseNavtexCoord` reads a latitude and a longitude
 * written as "degrees minutes direction" (for example "42 20.70 K") into
 * signed decimal degrees, and `announcementToPoints` turns an
 * announcement's point list into the coordinates that parse. The direction
 * letters are Turkish: K/G (Kuzey/Güney, north/south) and D/B (Doğu/Batı,
 * east/west); S and W are accepted too.
 */
module Navtex {
  import opened Wrappers
  import JsString
  import JsNumber

  /** A property of a point record: a string, or any other JavaScript value (undefined, null, a number, ...). */
  datatype Field = NonString | Str(text: string)

  /** An element of the `ltdlng` array: a record with `latitude` and `longitude`, or null/undefined. */
  datatype Entry = Point(latitude: Field, longitude: Field) | Nullish

  /** The `ltdlng` argument: an array, or anything else (undefined, null, an object, ...). */
  datatype Announcement = NotArray | Array(entries: seq<Entry>)

  /** `{ lat, lng }` in signed decimal degrees. */
  datatype Coord = Coord(lat: real, lng: real)

  /** The result of `announcementToPoints`: the points, or the TypeError thrown by `pt.latitude` on a null element. */
  datatype Outcome = Points(points: seq<Coord>) | TypeError

  /** `str.trim().split(/\s+/)`. */
  function Tokens(s: string): seq<string>
  {
    JsString.SplitOnWhitespace(JsString.Trim(s))
  }

  /** The sign of the upper-cased direction token: -1 for G or S in a latitude, for B or W in a longitude. */
  function DirectionSign(dir: string, isLat: bool): (sign: real)
    ensures sign == 1.0 || sign == -1.0
    ensures sign == -1.0 <==> if isLat then dir == "G" || dir == "S" else dir == "B" || dir == "W"
  {
    if isLat then (if dir == "G" || dir == "S" then -1.0 else 1.0)
    else (if dir == "B" || dir == "W" then -1.0 else 1.0)
  }

  /** The sign the third token gives (an absent one is the empty string). */
  function TokenSign(parts: seq<string>, isLat: bool): real
  {
    DirectionSign(if |parts| > 2 then JsString.ToUpper(parts[2]) else "", isLat)
  }

  /** `(deg + min / 60) * sign` when both numbers parse, else `null`. */
  function Degrees(deg: Option<real>, min: Option<real>, sign: real): (r: Option<real>)
    ensures r.Some? <==> deg.Some? && min.Some?
  {
    if deg.None? || min.None? then None else Some((deg.value + min.value / 60.0) * sign)
  }

  /**
   * `parsePart(str, isLat)`: `null` for a missing, empty or non-string
   * value, for fewer than two tokens, or when the degree or minute token is
   * not a number; otherwise the degrees plus the minutes over 60, negated
   * by a south or west direction letter in the third token.
   */
  function ParsePart(field: Field, isLat: bool): (r: Option<real>)
    ensures field.NonString? || field.text == "" ==> r.None?
    ensures field.Str? && |Tokens(field.text)| < 2 ==> r.None?
    ensures r.Some? <==>
      field.Str? && field.text != "" && |Tokens(field.text)| >= 2 &&
      JsNumber.ParseFloat(Tokens(field.text)[0]).Some? && JsNumber.ParseFloat(Tokens(field.text)[1]).Some?
  {
    match field
    case NonString => None
    case Str(s) =>
      if s == "" then None
      else
        var parts := Tokens(s);
        if |parts| < 2 then None
        else Degrees(JsNumber.ParseFloat(parts[0]), JsNumber.ParseFloat(parts[1]), TokenSign(parts, isLat))
  }

  /** `parseNavtexCoord(latStr, lngStr)`: both parts, or `null` when either is `null`. */
  function ParseNavtexCoord(latStr: Field, lngStr: Field): (r: Option<Coord>)
    ensures r.None? <==> ParsePart(latStr, true).None? || ParsePart(lngStr, false).None?
    ensures r.Some? ==> r.value.lat == ParsePart(latStr, true).value && r.value.lng == ParsePart(lngStr, false).value
  {
    var lat := ParsePart(latStr, true);
    var lng := ParsePart(lngStr, false);
    if lat.None? || lng.None? then None else Some(Coord(lat.value, lng.value))
  }

  function AsList(c: Option<Coord>): seq<Coord>
  {
    if c.Some? then [c.value] else []
  }

  /** No element of the array is null or undefined, so reading `pt.latitude` never throws. */
  predicate NoNullish(entries: seq<Entry>)
  {
    forall k :: 0 <= k < |entries| ==> entries[k].Point?
  }

  /** The points of one element: its coordinates when `parse` accepts it, nothing otherwise. */
  function PointsOf(e: Entry, parse: (Field, Field) -> Option<Coord>): (points: seq<Coord>)
    ensures |points| <= 1
  {
    if e.Point? then AsList(parse(e.latitude, e.longitude)) else []
  }

  /**
   * The points `parse` gives for the elements, in array order, skipping the
   * elements it rejects. A null element contributes nothing here; the
   * callers only look at arrays without one, since reading its `latitude`
   * throws.
   */
  function Collected(entries: seq<Entry>, parse: (Field, Field) -> Option<Coord>): (points: seq<Coord>)
    ensures |points| <= |entries|
  {
    if |entries| == 0 then []
    else
      Collected(entries[..|entries| - 1], parse) + PointsOf(entries[|entries| - 1], parse)
  }

  /** The coordinates of the elements that `parseNavtexCoord` accepts, in array order. */
  function ParsedPoints(entries: seq<Entry>): seq<Coord>
  {
    Collected(entries, ParseNavtexCoord)
  }

  /**
   * The loop of `announcementToPoints`: reads each element's `latitude` and
   * `longitude` (throwing on a null element), parses them and keeps the
   * results that are not `null`. The parser is a parameter, since the loop
   * does not depend on how a point parses.
   */
  method CollectPoints(entries: seq<Entry>, parse: (Field, Field) -> Option<Coord>) returns (r: Outcome)
    ensures NoNullish(entries) ==> r == Points(Collected(entries, parse))
    ensures !NoNullish(entries) ==> r == TypeError
  {
    var points: seq<Coord> := [];
    for i := 0 to |entries|
      invariant forall k :: 0 <= k < i ==> entries[k].Point?
      invariant points == Collected(entries[..i], parse)
    {
      var pt := entries[i];
      if pt.Nullish? {
        return TypeError;
      }
      var coords := parse(pt.latitude, pt.longitude);
      assert entries[..i + 1][..i] == entries[..i];
      if coords.Some? {
        points := points + [coords.value];
      }
    }
    assert entries[..|entries|] == entries;
    return Points(points);
  }

  /**
   * `announcementToPoints(ltdlng)`: `[]` for a value that is not an array;
   * for an array, the coordinates of the elements that parse, in order,
   * skipping the others; a null or undefined element throws.
   */
  method AnnouncementToPoints(ltdlng: Announcement) returns (r: Outcome)
    ensures ltdlng.NotArray? ==> r == Points([])
    ensures ltdlng.Array? && NoNullish(ltdlng.entries) ==> r == Points(ParsedPoints(ltdlng.entries))
    ensures ltdlng.Array? && !NoNullish(ltdlng.entries) ==> r == TypeError
  {
    if ltdlng.NotArray? {
      return Points([]);
    }
    r := CollectPoints(ltdlng.entries, ParseNavtexCoord);
  }

  /** A south or west direction token: one letter that upper-cases to G or S (latitude), or to B or W (longitude). */
  predicate SouthOrWest(dir: string, isLat: bool)
  {
    |dir| == 1 &&
    if isLat then dir[0] in {'g', 'G', 's', 'S', '\U{017F}'} else dir[0] in {'b', 'B', 'w', 'W'}
  }

  /** The third token negates the value exactly when it names the south or the west, in either case. */
  lemma DirectionOfToken(dir: string, isLat: bool)
    ensures DirectionSign(JsString.ToUpper(dir), isLat) == -1.0 <==> SouthOrWest(dir, isLat)
  {
    JsString.UpperIsLetter(dir, 'G');
    JsString.UpperIsLetter(dir, 'S');
    JsString.UpperIsLetter(dir, 'B');
    JsString.UpperIsLetter(dir, 'W');
    if |dir| == 1 {
      JsString.UpperCharInverse(dir[0], 'G');
      JsString.UpperCharInverse(dir[0], 'S');
      JsString.UpperCharInverse(dir[0], 'B');
      JsString.UpperCharInverse(dir[0], 'W');
    }
  }

  /** Words with no whitespace inside, such as `trim().split(/\s+/)` yields for a non-blank string. */
  predicate Words(words: seq<string>)
  {
    |words| >= 1 && forall k :: 0 <= k < |words| ==> words[k] != [] && JsString.NoSpace(words[k])
  }

  /** Splitting a padded line of words, with a run of whitespace between each two, gives the words. */
  lemma TokensOfWords(pad1: string, words: seq<string>, seps: seq<string>, pad2: string)
    requires JsString.AllSpace(pad1) && JsString.AllSpace(pad2) && Words(words)
    requires |seps| == |words| - 1 && JsString.Separators(seps)
    ensures Tokens(pad1 + JsString.JoinWith(words, seps) + pad2) == words
  {
    JsString.TrimIgnoresPadding(pad1, JsString.JoinWith(words, seps), pad2);
    JsString.TrimJoin(words, seps);
    JsString.SplitJoin(words, seps);
  }

  /**
   * A line of words, padded and separated by whitespace, parses to the first
   * word in degrees plus the second in minutes, negated by a south or west
   * letter in the third; words after the third are ignored.
   */
  lemma ParsePartOfWords(pad1: string, words: seq<string>, seps: seq<string>, pad2: string, isLat: bool)
    requires JsString.AllSpace(pad1) && JsString.AllSpace(pad2) && Words(words) && |words| >= 2
    requires |seps| == |words| - 1 && JsString.Separators(seps)
    requires JsNumber.ParseFloat(words[0]).Some? && JsNumber.ParseFloat(words[1]).Some?
    ensures var value := JsNumber.ParseFloat(words[0]).value + JsNumber.ParseFloat(words[1]).value / 60.0;
      ParsePart(Str(pad1 + JsString.JoinWith(words, seps) + pad2), isLat) ==
      Some(if |words| > 2 && SouthOrWest(words[2], isLat) then -value else value)
  {
    var line := pad1 + JsString.JoinWith(words, seps) + pad2;
    TokensOfWords(pad1, words, seps, pad2);
    JsString.JoinStartsWithWord(words, seps);
    ParsePartOfTokens(line, words, isLat);
  }

  /** The value of a part whose tokens are `parts`. */
  lemma ParsePartOfTokens(text: string, parts: seq<string>, isLat: bool)
    requires text != "" && Tokens(text) == parts && |parts| >= 2
    requires JsNumber.ParseFloat(parts[0]).Some? && JsNumber.ParseFloat(parts[1]).Some?
    ensures var value := JsNumber.ParseFloat(parts[0]).value + JsNumber.ParseFloat(parts[1]).value / 60.0;
      ParsePart(Str(text), isLat) == Some(if |parts| > 2 && SouthOrWest(parts[2], isLat) then -value else value)
  {
    SignedDegrees(JsNumber.ParseFloat(parts[0]), JsNumber.ParseFloat(parts[1]), parts, isLat);
  }

  lemma SignedDegrees(deg: Option<real>, min: Option<real>, parts: seq<string>, isLat: bool)
    requires deg.Some? && min.Some?
    ensures var value := deg.value + min.value / 60.0;
      Degrees(deg, min, TokenSign(parts, isLat)) ==
      Some(if |parts| > 2 && SouthOrWest(parts[2], isLat) then -value else value)
  {
    if |parts| > 2 {
      DirectionOfToken(parts[2], isLat);
    } else {
      DirectionOfToken("", isLat);
    }
  }

  /** Whitespace before or after the text of a part does not change what it parses to. */
  lemma ParsePartIgnoresPadding(pad1: string, text: string, pad2: string, isLat: bool)
    requires JsString.AllSpace(pad1) && JsString.AllSpace(pad2)
    ensures ParsePart(Str(pad1 + text + pad2), isLat) == ParsePart(Str(text), isLat)
  {
    JsString.TrimIgnoresPadding(pad1, text, pad2);
    if text == "" {
      assert Tokens("") == [""];
    }
  }

  /** A line whose first or second word is not a number parses to `null`. */
  lemma ParsePartNotANumber(pad1: string, words: seq<string>, seps: seq<string>, pad2: string, isLat: bool)
    requires JsString.AllSpace(pad1) && JsString.AllSpace(pad2) && Words(words) && |words| >= 2
    requires |seps| == |words| - 1 && JsString.Separators(seps)
    requires JsNumber.ParseFloat(words[0]).None? || JsNumber.ParseFloat(words[1]).None?
    ensures ParsePart(Str(pad1 + JsString.JoinWith(words, seps) + pad2), isLat).None?
  {
    TokensOfWords(pad1, words, seps, pad2);
  }

  /** A line of a single word parses to `null`. */
  lemma ParsePartOneWord(pad1: string, word: string, pad2: string, isLat: bool)
    requires JsString.AllSpace(pad1) && JsString.AllSpace(pad2) && Words([word])
    ensures ParsePart(Str(pad1 + word + pad2), isLat).None?
  {
    TokensOfWords(pad1, [word], [], pad2);
  }

  /** Collecting over two arrays in turn gives the points of the first, then those of the second. */
  lemma {:induction false} CollectedAppend(a: seq<Entry>, b: seq<Entry>, parse: (Field, Field) -> Option<Coord>)
    ensures Collected(a + b, parse) == Collected(a, parse) + Collected(b, parse)
    decreases |b|
  {
    if |b| == 0 {
      assert a + b == a;
    } else {
      var b' := b[..|b| - 1];
      assert (a + b)[..|a + b| - 1] == a + b';
      assert (a + b)[|a + b| - 1] == b[|b| - 1];
      CollectedAppend(a, b', parse);
    }
  }

  /** Every collected point is what `parse` gives for some element, and the element order is kept. */
  lemma {:induction false} CollectedFromEntries(entries: seq<Entry>, parse: (Field, Field) -> Option<Coord>, j: nat)
    requires j < |Collected(entries, parse)|
    ensures exists k ::
      0 <= k < |entries| && entries[k].Point? &&
      parse(entries[k].latitude, entries[k].longitude) == Some(Collected(entries, parse)[j])
    decreases |entries|
  {
    var n := |entries| - 1;
    var init := Collected(entries[..n], parse);
    if j < |init| {
      CollectedFromEntries(entries[..n], parse, j);
      var k :| 0 <= k < n && entries[..n][k].Point? &&
        parse(entries[..n][k].latitude, entries[..n][k].longitude) == Some(init[j]);
      assert entries[k] == entries[..n][k];
    } else {
      assert entries[n].Point? && parse(entries[n].latitude, entries[n].longitude).Some?;
    }
  }

  /** When `parse` accepts every element, each element gives exactly one point, at its own index. */
  lemma {:induction false} CollectedAllAccepted(entries: seq<Entry>, parse: (Field, Field) -> Option<Coord>)
    requires forall k :: 0 <= k < |entries| ==> entries[k].Point? && parse(entries[k].latitude, entries[k].longitude).Some?
    ensures |Collected(entries, parse)| == |entries|
    ensures forall k :: 0 <= k < |entries| ==>
      Collected(entries, parse)[k] == parse(entries[k].latitude, entries[k].longitude).value
    decreases |entries|
  {
    if |entries| > 0 {
      var n := |entries| - 1;
      assert forall k :: 0 <= k < n ==> entries[..n][k] == entries[k];
      CollectedAllAccepted(entries[..n], parse);
    }
  }

  /** When `parse` rejects every element, there are no points. */
  lemma {:induction false} CollectedNoneAccepted(entries: seq<Entry>, parse: (Field, Field) -> Option<Coord>)
    requires forall k :: 0 <= k < |entries| ==> entries[k].Point? ==> parse(entries[k].latitude, entries[k].longitude).None?
    ensures Collected(entries, parse) == []
    decreases |entries|
  {
    if |entries| > 0 {
      var n := |entries| - 1;
      assert forall k :: 0 <= k < n ==> entries[..n][k] == entries[k];
      CollectedNoneAccepted(entries[..n], parse);
    }
  }
}
