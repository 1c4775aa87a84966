/**
 * The part of slice and contour extraction (ExtractSlicesAndContours_py) that
 * is not geometry: the entities are split into meshes and clouds, and the
 * envelope type is normalised, before the library does the slicing.
 */
module Slicing {
  import opened ObjectGraph

  /** Which side of a slice the envelope follows. */
  datatype EnvelopeType = Lower | Upper | Full

  /** The requested envelope type clamped to the range 0 .. 2. */
  function ClampEnvelopeType(envelopeType: int): (r: int)
    ensures 0 <= r <= 2
    ensures 0 <= envelopeType <= 2 ==> r == envelopeType
    ensures envelopeType < 0 ==> r == 0
    ensures envelopeType > 2 ==> r == 2
  {
    var v := if envelopeType < 0 then 0 else envelopeType;
    if v > 2 then 2 else v
  }

  /** The envelope type a requested value stands for, through the table LOWER, UPPER, FULL. */
  function EnvelopeTypeOf(envelopeType: int): EnvelopeType {
    [Lower, Upper, Full][ClampEnvelopeType(envelopeType)]
  }

  /** 0, 1 and 2 are LOWER, UPPER and FULL; below 0 behaves as 0 and above 2 as 2. */
  lemma EnvelopeTypeOfCases(envelopeType: int)
    ensures envelopeType <= 0 ==> EnvelopeTypeOf(envelopeType) == Lower
    ensures envelopeType == 1 ==> EnvelopeTypeOf(envelopeType) == Upper
    ensures envelopeType >= 2 ==> EnvelopeTypeOf(envelopeType) == Full
  {
  }

  /** Every envelope type is requested by exactly one value of the range 0 .. 2. */
  lemma EnvelopeTypeOfOnto(t: EnvelopeType)
    ensures exists v :: 0 <= v <= 2 && EnvelopeTypeOf(v) == t
    ensures forall v, w :: 0 <= v <= 2 && 0 <= w <= 2 && EnvelopeTypeOf(v) == t && EnvelopeTypeOf(w) == t ==> v == w
  {
    var v := if t == Lower then 0 else if t == Upper then 1 else 2;
    assert EnvelopeTypeOf(v) == t;
  }

  /** The entities of a mesh kind (isKindOf(MESH)), in order. */
  function MeshesOf(entities: seq<Entity>): (r: seq<Entity>)
    ensures |r| <= |entities|
  {
    if entities == [] then []
    else
      var e := entities[|entities| - 1];
      MeshesOf(entities[..|entities| - 1]) + (if e.kind.Mesh? then [e] else [])
  }

  /** An entity is kept exactly when it is one of the inputs and a mesh. */
  lemma {:induction false} MeshesOfMembers(entities: seq<Entity>)
    ensures forall e :: e in MeshesOf(entities) <==> e in entities && e.kind.Mesh?
  {
    if entities != [] {
      var init := entities[..|entities| - 1];
      MeshesOfMembers(init);
      assert entities == init + [entities[|entities| - 1]];
    }
  }

  /** The number of entities that are neither clouds nor meshes. */
  function OthersCount(entities: seq<Entity>): nat {
    if entities == [] then 0
    else
      var e := entities[|entities| - 1];
      OthersCount(entities[..|entities| - 1]) + (if e.kind.Mesh? || IsKindOfCloud(e.kind) then 0 else 1)
  }

  /** The meshes of a sequence with one more entity at the end. */
  lemma MeshesOfSnoc(s: seq<Entity>, e: Entity)
    ensures MeshesOf(s + [e]) == MeshesOf(s) + (if e.kind.Mesh? then [e] else [])
  {
    assert (s + [e])[..|s|] == s;
  }

  /** The clouds of a sequence with one more entity at the end. */
  lemma CloudsOfSnoc(s: seq<Entity>, e: Entity)
    ensures CloudsOf(s + [e]) == CloudsOf(s) + (if IsKindOfCloud(e.kind) then [e] else [])
  {
    assert (s + [e])[..|s|] == s;
  }

  /** The meshes of a concatenation. */
  lemma {:induction false} MeshesOfAppend(a: seq<Entity>, b: seq<Entity>)
    ensures MeshesOf(a + b) == MeshesOf(a) + MeshesOf(b)
  {
    if b == [] {
      assert a + b == a;
    } else {
      var init, e := b[..|b| - 1], b[|b| - 1];
      assert b == init + [e];
      assert a + b == (a + init) + [e];
      MeshesOfAppend(a, init);
      MeshesOfSnoc(a + init, e);
      MeshesOfSnoc(init, e);
      var last := if e.kind.Mesh? then [e] else [];
      assert MeshesOf(a) + MeshesOf(init) + last == MeshesOf(a) + (MeshesOf(init) + last);
    }
  }

  /** The clouds of a concatenation. */
  lemma {:induction false} CloudsOfAppend(a: seq<Entity>, b: seq<Entity>)
    ensures CloudsOf(a + b) == CloudsOf(a) + CloudsOf(b)
  {
    if b == [] {
      assert a + b == a;
    } else {
      var init, e := b[..|b| - 1], b[|b| - 1];
      assert b == init + [e];
      assert a + b == (a + init) + [e];
      CloudsOfAppend(a, init);
      CloudsOfSnoc(a + init, e);
      CloudsOfSnoc(init, e);
      var last := if IsKindOfCloud(e.kind) then [e] else [];
      assert CloudsOf(a) + CloudsOf(init) + last == CloudsOf(a) + (CloudsOf(init) + last);
    }
  }

  /**
   * The split keeps the input order: splitting a concatenation is
   * concatenating the splits of its parts.
   */
  lemma SplitKeepsOrder(a: seq<Entity>, b: seq<Entity>)
    ensures MeshesOf(a + b) == MeshesOf(a) + MeshesOf(b)
    ensures CloudsOf(a + b) == CloudsOf(a) + CloudsOf(b)
  {
    MeshesOfAppend(a, b);
    CloudsOfAppend(a, b);
  }

  /** Every entity goes to exactly one of meshes, clouds or the dropped ones. */
  lemma {:induction false} SplitCounts(entities: seq<Entity>)
    ensures |MeshesOf(entities)| + |CloudsOf(entities)| + OthersCount(entities) == |entities|
  {
    if entities != [] {
      SplitCounts(entities[..|entities| - 1]);
    }
  }

  /** Splits the entities into meshes and clouds, in order; other kinds are dropped. */
  method SplitEntities(entities: seq<Entity>) returns (clouds: seq<Entity>, meshes: seq<Entity>)
    ensures clouds == CloudsOf(entities) && meshes == MeshesOf(entities)
  {
    clouds, meshes := [], [];
    for i := 0 to |entities|
      invariant clouds == CloudsOf(entities[..i]) && meshes == MeshesOf(entities[..i])
    {
      assert entities[..i + 1][..i] == entities[..i];
      var obj := entities[i];
      if obj.kind.Mesh? {
        meshes := meshes + [obj];
      } else if IsKindOfCloud(obj.kind) {
        clouds := clouds + [obj];
      }
    }
    assert entities[..|entities|] == entities;
  }

  /** The switches handed on to the slicing, with the envelope type normalised. */
  datatype SliceSettings = SliceSettings(
    singleSliceMode: bool, processDimensions: seq<bool>, extractEnvelopes: bool, envelopeType: EnvelopeType,
    extractLevelSet: bool, levelSetMinVertCount: int, multiPass: bool, splitEnvelopes: bool,
    projectOnBestFitPlane: bool, generateRandomColors: bool)

  /** The switches as the caller gives them. */
  datatype SliceRequest = SliceRequest(
    singleSliceMode: bool, processRepeatX: bool, processRepeatY: bool, processRepeatZ: bool,
    extractEnvelopes: bool, envelopeType: int, extractLevelSet: bool, levelSetMinVertCount: int,
    multiPass: bool, splitEnvelopes: bool, projectOnBestFitPlane: bool, generateRandomColors: bool)

  /** The slices, envelopes and level sets the library produces. */
  datatype SliceOutput = SliceOutput(slices: seq<Entity>, envelopes: seq<Entity>, levelSets: seq<Entity>)

  /** The settings the library receives for a request. */
  function SettingsFor(r: SliceRequest): SliceSettings {
    SliceSettings(r.singleSliceMode, [r.processRepeatX, r.processRepeatY, r.processRepeatZ], r.extractEnvelopes,
                  EnvelopeTypeOf(r.envelopeType), r.extractLevelSet, r.levelSetMinVertCount, r.multiPass,
                  r.splitEnvelopes, r.projectOnBestFitPlane, r.generateRandomColors)
  }

  /** The request with its envelope type clamped to 0 .. 2. */
  function Clamped(r: SliceRequest): SliceRequest {
    r.(envelopeType := ClampEnvelopeType(r.envelopeType))
  }

  /** The value of 0 .. 2 that stands for an envelope type. */
  function EnvelopeIndex(e: EnvelopeType): int {
    match e
    case Lower => 0
    case Upper => 1
    case Full => 2
  }

  /** The request a library call's settings come from, with its envelope type clamped. */
  function RequestOf(s: SliceSettings): SliceRequest
    requires |s.processDimensions| == 3
  {
    SliceRequest(s.singleSliceMode, s.processDimensions[0], s.processDimensions[1], s.processDimensions[2],
                 s.extractEnvelopes, EnvelopeIndex(s.envelopeType), s.extractLevelSet, s.levelSetMinVertCount,
                 s.multiPass, s.splitEnvelopes, s.projectOnBestFitPlane, s.generateRandomColors)
  }

  /** Every switch of the request reaches the library: the settings give back the clamped request. */
  lemma SettingsRoundTrip(r: SliceRequest)
    ensures |SettingsFor(r).processDimensions| == 3 && RequestOf(SettingsFor(r)) == Clamped(r)
  {
    EnvelopeTypeOfCases(r.envelopeType);
  }

  /** An out-of-range envelope type acts as its clamp. */
  lemma SettingsOfClamped(r: SliceRequest)
    ensures SettingsFor(Clamped(r)) == SettingsFor(r)
  {
    EnvelopeTypeOfCases(r.envelopeType);
    EnvelopeTypeOfCases(ClampEnvelopeType(r.envelopeType));
  }

  /**
   * Two requests give the library the same settings exactly when they agree
   * once their envelope types are clamped.
   */
  lemma SettingsSeeClampedRequest(r1: SliceRequest, r2: SliceRequest)
    ensures SettingsFor(r1) == SettingsFor(r2) <==> Clamped(r1) == Clamped(r2)
  {
    SettingsRoundTrip(r1);
    SettingsRoundTrip(r2);
    SettingsOfClamped(r1);
    SettingsOfClamped(r2);
  }

  /**
   * Extracts slices and contours (ExtractSlicesAndContours_py): the library
   * call `extract` (ExtractSlicesAndContoursClone) receives the clouds and
   * the meshes of the entities and the normalised settings.
   */
  method ExtractSlicesAndContours(entities: seq<Entity>, request: SliceRequest,
                                  extract: (seq<Entity>, seq<Entity>, SliceSettings) -> SliceOutput)
    returns (res: SliceOutput)
    ensures res == extract(CloudsOf(entities), MeshesOf(entities), SettingsFor(request))
  {
    var clouds, meshes := SplitEntities(entities);
    var envelopeType := request.envelopeType;
    if envelopeType < 0 {
      envelopeType := 0;
    }
    if envelopeType > 2 {
      envelopeType := 2;
    }
    var envelType := [Lower, Upper, Full][envelopeType];
    var settings := SliceSettings(request.singleSliceMode, [request.processRepeatX, request.processRepeatY, request.processRepeatZ],
                                  request.extractEnvelopes, envelType, request.extractLevelSet, request.levelSetMinVertCount,
                                  request.multiPass, request.splitEnvelopes, request.projectOnBestFitPlane,
                                  request.generateRandomColors);
    res := extract(clouds, meshes, settings);
  }
}
