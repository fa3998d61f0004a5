/**
 * The `BACKEND_CORS_ORIGINS` setting: the validator that turns the raw value (normally an
 * environment string) into the list of allowed origins.
 */
module Config {
  import opened Wrappers
  import opened Text
  import opened Values

  /** The pieces of a comma-separated string, each stripped of surrounding whitespace. */
  function Origins(s: string): (r: seq<string>)
    ensures |r| == |Split(s, ',')|
    ensures forall i :: 0 <= i < |r| ==> r[i] == Strip(Split(s, ',')[i])
  {
    var pieces := Split(s, ',');
    seq(|pieces|, i requires 0 <= i < |pieces| => Strip(pieces[i]))
  }

  /**
   * `assemble_cors_origins`: a list is kept as it is; a string starting with `[` is handed to
   * the JSON parser `loads`; any other string is split on commas and each piece stripped;
   * any other value is refused. `None` stands for the `ValueError` raised (by the parser or
   * by the validator itself).
   */
  function AssembleCorsOrigins(v: Json, loads: string -> Option<Json>): (r: Option<Json>)
    ensures v.JList? ==> r == Some(v)
    ensures !v.JStr? && !v.JList? ==> r.None?
    ensures v.JStr? && StartsWith(v.s, "[") ==> r == loads(v.s)
    ensures v.JStr? && !StartsWith(v.s, "[") ==> r == Some(JList(Strs(Origins(v.s))))
  {
    match v
    case JStr(s) => if StartsWith(s, "[") then loads(s) else Some(JList(Strs(Origins(s))))
    case JList(_) => Some(v)
    case _ => None
  }

  /** Stripping keeps a character out if it was not there. */
  lemma StripKeepsOut(p: string, c: char)
    requires c !in p
    ensures c !in Strip(p)
  {
    var o := Strip(p);
    var k := LeadingSpaces(p);
    assert p[k..k + |o|] == o;
    forall j | 0 <= j < |o| ensures o[j] != c {
      assert o[j] == p[k + j];
    }
  }

  /** A comma-separated string gives one origin more than it has commas, none holding a comma. */
  lemma OriginsCount(s: string)
    ensures |Origins(s)| == Occurrences(s, ',') + 1
    ensures forall i :: 0 <= i < |Origins(s)| ==> ',' !in Origins(s)[i]
  {
    SplitCount(s, ',');
    SplitPiecesAvoidSeparator(s, ',');
    var pieces := Split(s, ',');
    forall i | 0 <= i < |pieces| ensures ',' !in Origins(s)[i] {
      StripKeepsOut(pieces[i], ',');
    }
  }

  /** The empty setting is one empty origin, not an empty list. */
  lemma EmptyStringGivesOneEmptyOrigin(loads: string -> Option<Json>)
    ensures AssembleCorsOrigins(JStr(""), loads) == Some(JList([JStr("")]))
  {
    assert Split("", ',') == [""];
    assert Strip("") == "";
    assert Origins("") == [""];
    assert Strs([""]) == [JStr("")];
  }

  /** Neither end of an origin is whitespace. */
  predicate Trimmed(o: string) {
    o != [] ==> !IsSpace(o[0]) && !IsSpace(o[|o| - 1])
  }

  /** Stripping a trimmed string changes nothing. */
  lemma StripTrimmed(o: string)
    requires Trimmed(o)
    ensures Strip(o) == o
  {
  }

  /** Origins without commas and without surrounding whitespace, joined by commas, split back. */
  lemma OriginsOfJoin(origins: seq<string>)
    requires |origins| >= 1
    requires forall i :: 0 <= i < |origins| ==> ',' !in origins[i] && Trimmed(origins[i])
    ensures Origins(Join(origins, ',')) == origins
  {
    SplitJoin(origins, ',');
    var r := Origins(Join(origins, ','));
    assert |r| == |origins|;
    forall i | 0 <= i < |origins| ensures r[i] == origins[i] {
      StripTrimmed(origins[i]);
    }
  }

  /**
   * Origins without commas and without surrounding whitespace, written comma-separated (not
   * starting with `[`), are read back as exactly those origins.
   */
  lemma OriginsRoundTrip(origins: seq<string>, loads: string -> Option<Json>)
    requires |origins| >= 1
    requires forall i :: 0 <= i < |origins| ==> ',' !in origins[i] && Trimmed(origins[i])
    requires !StartsWith(Join(origins, ','), "[")
    ensures AssembleCorsOrigins(JStr(Join(origins, ',')), loads) == Some(JList(Strs(origins)))
  {
    OriginsOfJoin(origins);
  }
}
