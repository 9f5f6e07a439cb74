/**
  The cloud service types that a manager yields. They are module-level objects: every
  collection rewrites their service code and icon in place, on top of earlier rewrites.
 */
module ServiceTypes {
  import opened Basics
  import opened Text

  const ICON := "spaceone:icon"

  datatype Options = Options(serviceCodeMappers: Option<map<string, string>>, customAssetUrl: Option<string>)

  /** The resource of one cloud service type; an absent service code is the empty text. */
  class ServiceTypeResource {
    var serviceCode: string
    var tags: map<string, string>

    constructor (serviceCode: string, tags: map<string, string>)
      ensures this.serviceCode == serviceCode && this.tags == tags
    {
      this.serviceCode, this.tags := serviceCode, tags;
    }
  }

  function Mapped(code: string, mappers: map<string, string>): string
  {
    if code != "" && code in mappers then mappers[code] else code
  }

  function CodeAfter(code: string, options: Options): string
  {
    match options.serviceCodeMappers
    case Some(mappers) => Mapped(code, mappers)
    case None => code
  }

  function TagsAfter(tags: map<string, string>, options: Options): map<string, string>
  {
    match options.customAssetUrl
    case Some(url) => if ICON in tags then tags[ICON := url + "/" + LastPiece(tags[ICON], '/')] else tags
    case None => tags
  }

  /** One run: a code that is a key of the mapper becomes its value, every other code and an empty one stay. */
  lemma CodeAfterOneRun(code: string, options: Options)
    ensures options.serviceCodeMappers.None? ==> CodeAfter(code, options) == code
    ensures forall mappers :: options.serviceCodeMappers == Some(mappers) ==>
              && (code != "" && code in mappers ==> CodeAfter(code, options) == mappers[code])
              && (code == "" || code !in mappers ==> CodeAfter(code, options) == code)
  {
  }

  method CollectCloudServiceType(types: seq<ServiceTypeResource>, options: Options)
    returns (yielded: seq<ServiceTypeResource>)
    requires forall i, j :: 0 <= i < j < |types| ==> types[i] != types[j]
    modifies types
    ensures yielded == types
    ensures forall i :: 0 <= i < |types| ==>
              && types[i].serviceCode == CodeAfter(old(types[i].serviceCode), options)
              && types[i].tags == TagsAfter(old(types[i].tags), options)
  {
    yielded := [];
    for k := 0 to |types|
      invariant yielded == types[..k]
      invariant forall i :: 0 <= i < k ==>
                  && types[i].serviceCode == CodeAfter(old(types[i].serviceCode), options)
                  && types[i].tags == TagsAfter(old(types[i].tags), options)
      invariant forall i :: k <= i < |types| ==>
                  types[i].serviceCode == old(types[i].serviceCode) && types[i].tags == old(types[i].tags)
    {
      var resource := types[k];
      if options.serviceCodeMappers.Some? {
        var mappers := options.serviceCodeMappers.value;
        if resource.serviceCode != "" && resource.serviceCode in mappers {
          resource.serviceCode := mappers[resource.serviceCode];
        }
      }
      if options.customAssetUrl.Some? {
        if ICON in resource.tags {
          var icon := resource.tags[ICON];
          resource.tags := resource.tags[ICON := options.customAssetUrl.value + "/" + LastPiece(icon, '/')];
        }
      }
      yielded := yielded + [resource];
    }
  }

  // ---------- many collections over the same objects ----------

  function CodeAfterRuns(code: string, runs: seq<Options>): string
  {
    if runs == [] then code else CodeAfter(CodeAfterRuns(code, runs[..|runs| - 1]), runs[|runs| - 1])
  }

  function TagsAfterRuns(tags: map<string, string>, runs: seq<Options>): map<string, string>
  {
    if runs == [] then tags else TagsAfter(TagsAfterRuns(tags, runs[..|runs| - 1]), runs[|runs| - 1])
  }

  method CollectRepeatedly(types: seq<ServiceTypeResource>, runs: seq<Options>)
    requires forall i, j :: 0 <= i < j < |types| ==> types[i] != types[j]
    modifies types
    ensures forall i :: 0 <= i < |types| ==>
              && types[i].serviceCode == CodeAfterRuns(old(types[i].serviceCode), runs)
              && types[i].tags == TagsAfterRuns(old(types[i].tags), runs)
  {
    for k := 0 to |runs|
      invariant forall i :: 0 <= i < |types| ==>
                  && types[i].serviceCode == CodeAfterRuns(old(types[i].serviceCode), runs[..k])
                  && types[i].tags == TagsAfterRuns(old(types[i].tags), runs[..k])
    {
      var _ := CollectCloudServiceType(types, runs[k]);
      assert runs[..k + 1][..k] == runs[..k];
    }
    assert runs[..|runs|] == runs;
  }

  /** The asset URL of the last collection that had one. */
  function LastUrl(runs: seq<Options>): Option<string>
  {
    if runs == [] then None
    else if runs[|runs| - 1].customAssetUrl.Some? then runs[|runs| - 1].customAssetUrl
    else LastUrl(runs[..|runs| - 1])
  }

  /**
    However often the icon was rewritten, it is the last URL followed by the last segment of
    the very first icon; all other tags are untouched.
   */
  lemma {:induction false} IconAfterRuns(tags: map<string, string>, runs: seq<Options>)
    ensures var after := TagsAfterRuns(tags, runs);
            && after.Keys == tags.Keys
            && (forall k :: k in tags && k != ICON ==> after[k] == tags[k])
            && (ICON in tags ==>
                  after[ICON] == match LastUrl(runs)
                                 case Some(url) => url + "/" + LastPiece(tags[ICON], '/')
                                 case None => tags[ICON])
  {
    if runs != [] {
      var earlier := runs[..|runs| - 1];
      IconAfterRuns(tags, earlier);
      if ICON in tags && LastUrl(earlier).Some? {
        var url, icon := LastUrl(earlier).value, LastPiece(tags[ICON], '/');
        LastPieceIsLastOfSplit(tags[ICON], '/');
        LastPieceAfter(url, '/', icon);
        assert url + "/" + icon == url + ['/'] + icon;
      }
    }
  }

  /** No code that a mapper produces is sent on to a different code by the same mapper. */
  predicate Settled(mappers: map<string, string>)
  {
    forall k :: k in mappers && k != "" ==> Mapped(mappers[k], mappers) == mappers[k]
  }

  function SameRun(mappers: map<string, string>, n: nat): seq<Options>
  {
    seq(n, i => Options(Some(mappers), None))
  }

  lemma {:induction false} SettledCodeStays(code: string, mappers: map<string, string>, n: nat)
    requires n > 0 && Settled(mappers)
    ensures CodeAfterRuns(code, SameRun(mappers, n)) == Mapped(code, mappers)
  {
    assert SameRun(mappers, n)[..n - 1] == SameRun(mappers, n - 1);
    if n > 1 {
      SettledCodeStays(code, mappers, n - 1);
    }
  }

  /**
    Collecting again and again with one mapper leaves every service code where the first
    collection put it, exactly when the mapper is settled.
   */
  lemma CodesAreStableExactlyWhenSettled(mappers: map<string, string>)
    ensures Settled(mappers) <==>
              forall code: string, n: nat :: n > 0 ==>
                CodeAfterRuns(code, SameRun(mappers, n)) == Mapped(code, mappers)
  {
    if Settled(mappers) {
      forall code: string, n: nat | n > 0
        ensures CodeAfterRuns(code, SameRun(mappers, n)) == Mapped(code, mappers)
      {
        SettledCodeStays(code, mappers, n);
      }
    } else {
      var k :| k in mappers && k != "" && Mapped(mappers[k], mappers) != mappers[k];
      assert SameRun(mappers, 2)[..1] == SameRun(mappers, 1);
      assert SameRun(mappers, 1)[..0] == [];
      assert CodeAfterRuns(k, SameRun(mappers, 1)) == Mapped(k, mappers) == mappers[k];
      assert CodeAfterRuns(k, SameRun(mappers, 2)) == Mapped(mappers[k], mappers);
    }
  }

  lemma TwoRuns(code: string, mappers: map<string, string>)
    ensures CodeAfterRuns(code, SameRun(mappers, 1)) == Mapped(code, mappers)
    ensures CodeAfterRuns(code, SameRun(mappers, 2)) == Mapped(Mapped(code, mappers), mappers)
  {
    assert SameRun(mappers, 2)[..1] == SameRun(mappers, 1);
    assert SameRun(mappers, 1)[..0] == [];
  }

  /** A renaming of one code into another that is renamed too: the code moves on with the second collection. */
  lemma ChainedCodesMove()
    ensures var mappers := map["GCE" := "Compute", "Compute" := "ComputeEngine"];
            && CodeAfterRuns("GCE", SameRun(mappers, 1)) == "Compute"
            && CodeAfterRuns("GCE", SameRun(mappers, 2)) == "ComputeEngine"
            && !Settled(mappers)
  {
    var mappers := map["GCE" := "Compute", "Compute" := "ComputeEngine"];
    assert |"GCE"| == 3 && |"Compute"| == 7 && |"ComputeEngine"| == 13;
    TwoRuns("GCE", mappers);
    assert "GCE" in mappers && Mapped(mappers["GCE"], mappers) == "ComputeEngine";
  }
}
