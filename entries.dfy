/** The pure helpers of src/editor.rs: the entry type `MaybeTz`, `validate`,
    `tz_from_name`, `maybetz_to_option`, and the all-or-nothing collection that
    `maybe_update_config` performs before it writes. */
module Entries {
  import opened Wrappers
  import opened Config
  import opened ZoneInfo

  /** A list entry: a clock whose zone resolved, or one that did not, kept with
      the text as entered and the error, so that editing can resume from it. */
  datatype MaybeTz = Ok(tz: Tz) | Err(tz: Tz, error: string)

  /** Resolve the entry's zone. The record is kept verbatim either way. */
  function Validate(db: ZoneDb, tz: Tz): (r: MaybeTz)
    ensures r.tz == tz
    ensures r.Ok? <==> tz.name in db
    ensures r.Err? ==> r.error == LoadError(tz.name)
  {
    match FromNames(db, tz.name, tz.displayName)
    case Success(_) => Ok(tz)
    case Failure(e) => Err(tz, e)
  }

  /** The text after the last `/` (all of `s` when it has none). */
  function LastSegment(s: string): (r: string)
    ensures |r| <= |s| && r == s[|s| - |r|..]
    ensures '/' !in r
    ensures |r| < |s| ==> s[|s| - |r| - 1] == '/'
  {
    if s == [] || s[|s| - 1] == '/' then []
    else LastSegment(s[..|s| - 1]) + [s[|s| - 1]]
  }

  /** Every `_` turned into a space. */
  function SpaceUnderscores(s: string): (r: string)
    ensures |r| == |s|
    ensures forall k :: 0 <= k < |s| ==> r[k] == (if s[k] == '_' then ' ' else s[k])
  {
    if s == [] then []
    else [if s[0] == '_' then ' ' else s[0]] + SpaceUnderscores(s[1..])
  }

  /** The display name derived for a newly chosen zone identifier. */
  function DerivedDisplayName(name: string): string
  {
    SpaceUnderscores(LastSegment(name))
  }

  /** The entry for a zone chosen from the catalogue: its display name is
      derived from the identifier, then the pair is validated. */
  function TzFromName(db: ZoneDb, name: string): (r: MaybeTz)
    ensures r.tz.name == name
    ensures r.tz.displayName == DerivedDisplayName(name)
    ensures r.Ok? <==> name in db
  {
    Validate(db, Tz(name, DerivedDisplayName(name)))
  }

  /** Split an entry into its record and its error, if any. The split loses
      nothing: the entry can be rebuilt from the pair. */
  function MaybetzToOption(m: MaybeTz): (r: (Tz, Option<string>))
    ensures r.0 == m.tz
    ensures r.1.None? <==> m.Ok?
    ensures m == (if r.1.None? then Ok(r.0) else Err(r.0, r.1.value))
  {
    match m
    case Ok(tz) => (tz, None)
    case Err(tz, e) => (tz, Some(e))
  }

  /** Every entry resolved. */
  predicate AllOk(tzs: seq<MaybeTz>)
  {
    forall k :: 0 <= k < |tzs| ==> tzs[k].Ok?
  }

  /** The records of a list, in order, whatever their validity: what the
      configuration would hold for it. */
  function Snapshot(tzs: seq<MaybeTz>): (r: seq<Tz>)
    ensures |r| == |tzs|
    ensures forall k :: 0 <= k < |tzs| ==> r[k] == tzs[k].tz
  {
    seq(|tzs|, k requires 0 <= k < |tzs| => tzs[k].tz)
  }

  /** The records of the list, or nothing as soon as one entry failed: the
      `collect` into `Option<Vec<Tz>>` that guards the config write. */
  function CollectOk(tzs: seq<MaybeTz>): (r: Option<seq<Tz>>)
    ensures r.Some? <==> AllOk(tzs)
    ensures r.Some? ==> r.value == Snapshot(tzs)
  {
    if tzs == [] then Some([])
    else match tzs[0]
      case Err(_, _) => None
      case Ok(t) =>
        match CollectOk(tzs[1..])
        case None => None
        case Some(rest) => Some([t] + rest)
  }

  /** Validate every record of a configuration, in order. Reading the records
      back gives the configuration exactly, whichever of them resolved. */
  function ValidateAll(db: ZoneDb, c: seq<Tz>): (r: seq<MaybeTz>)
    ensures Snapshot(r) == c
    ensures forall k :: 0 <= k < |c| ==> (r[k].Ok? <==> c[k].name in db)
  {
    seq(|c|, k requires 0 <= k < |c| => Validate(db, c[k]))
  }

  /** An entry with only its display name replaced; its identifier, its
      validity and its error stay as they were. */
  function WithDisplayName(m: MaybeTz, displayName: string): (r: MaybeTz)
    ensures r.tz == m.tz.(displayName := displayName)
    ensures r.Ok? == m.Ok?
    ensures r.Err? ==> r.error == m.error
  {
    match m
    case Ok(tz) => Ok(tz.(displayName := displayName))
    case Err(tz, e) => Err(tz.(displayName := displayName), e)
  }

  /** `LastSegment` picks out exactly the part after the final `/`. */
  lemma {:induction false} LastSegmentAfterSlash(dir: string, base: string)
    requires '/' !in base
    ensures LastSegment(dir + "/" + base) == base
  {
    var s := dir + "/" + base;
    var r := LastSegment(s);
    forall k | |s| - |r| <= k < |s| ensures s[k] != '/' {
      assert s[k] == r[k - (|s| - |r|)];
    }
    forall k | |s| - |base| <= k < |s| ensures s[k] != '/' {
      assert s[k] == base[k - (|s| - |base|)];
    }
    assert s[|s| - |base| - 1] == '/';
    assert s[|s| - |base|..] == base;
  }

  /** An identifier without `/` is its own last segment. */
  lemma {:induction false} LastSegmentWhole(s: string)
    requires '/' !in s
    ensures LastSegment(s) == s
  {
  }

  /** Text without `_` is left as it is. */
  lemma {:induction false} SpaceUnderscoresNone(s: string)
    requires '_' !in s
    ensures SpaceUnderscores(s) == s
  {
  }

  /** The display name derived for a default identifier. */
  lemma DerivedDisplayNameLondon()
    ensures DerivedDisplayName("Europe/London") == "London"
  {
    LastSegmentAfterSlash("Europe", "London");
    assert "Europe" + "/" + "London" == "Europe/London";
    SpaceUnderscoresNone("London");
  }

  /** Each `_` becomes a space and the text around it is treated alike. */
  lemma {:induction false} SpaceUnderscoresSplit(a: string, b: string)
    ensures SpaceUnderscores(a + "_" + b) == SpaceUnderscores(a) + " " + SpaceUnderscores(b)
  {
    var s := a + "_" + b;
    var l := SpaceUnderscores(s);
    var r := SpaceUnderscores(a) + " " + SpaceUnderscores(b);
    forall k | 0 <= k < |s| ensures l[k] == r[k] {
      if k < |a| {
        assert s[k] == a[k];
      } else if k > |a| {
        assert s[k] == b[k - |a| - 1];
      }
    }
  }

  /** The display name derived for `dir/first_second`, with no `/` after
      `dir` and no `_` in either word, is "first second". */
  lemma {:induction false} DerivedDisplayNameUnderscore(dir: string, first: string, second: string)
    requires '/' !in first && '/' !in second
    requires '_' !in first && '_' !in second
    ensures DerivedDisplayName(dir + "/" + first + "_" + second) == first + " " + second
  {
    var base := first + "_" + second;
    assert '/' !in base;
    assert dir + "/" + first + "_" + second == dir + "/" + base;
    LastSegmentAfterSlash(dir, base);
    SpaceUnderscoresSplit(first, second);
    SpaceUnderscoresNone(first);
    SpaceUnderscoresNone(second);
  }
}
