/**
 * GetAllTracksOfType: collect the tracks of one class from a movie scene,
 * scene-level tracks first, then the tracks of each selected binding in
 * binding order, appended to a caller-supplied list.
 */
module TrackSearch {
  import opened Wrappers
  import opened HostScene
  import opened Sequences

  /** Which of the two track collections a search visits (their defaults are the caller's choice). */
  datatype SearchFlags = SearchFlags(searchNonSpawnable: bool, searchSpawnable: bool)

  datatype TrackSearchParams = TrackSearchParams(
    trackType: TrackKind,
    spawnableGuid: Guid,
    movieScene: Option<MovieScene>,
    flags: SearchFlags)

  /** A binding takes part in a search unless the search names a valid guid and the binding has another. */
  predicate BindingSelected(b: Binding, guid: Guid) {
    !guid.IsValid() || b.guid == guid
  }

  /** The tracks of `tracks` of class `kind`, in their order. */
  function TracksOfKind(tracks: seq<Track>, kind: TrackKind): (r: seq<Track>)
    ensures |r| <= |tracks|
  {
    if |tracks| == 0 then []
    else
      var last := tracks[|tracks| - 1];
      TracksOfKind(tracks[..|tracks| - 1], kind) + (if last.kind == kind then [last] else [])
  }

  /** What one binding contributes: its tracks of class `kind` if it is selected, nothing otherwise. */
  function BindingPart(guid: Guid, kind: TrackKind): Binding -> seq<Track> {
    (b: Binding) => if BindingSelected(b, guid) then TracksOfKind(b.tracks, kind) else []
  }

  /** The tracks of class `kind` of every selected binding, binding after binding. */
  function BindingTracksOfKind(bindings: seq<Binding>, guid: Guid, kind: TrackKind): seq<Track> {
    ConcatMap(bindings, BindingPart(guid, kind))
  }

  /** Everything one search appends. */
  function TracksOfType(p: TrackSearchParams): (r: seq<Track>)
    ensures p.movieScene.None? ==> r == []
  {
    match p.movieScene
    case None => []
    case Some(scene) =>
      (if p.flags.searchNonSpawnable then TracksOfKind(scene.tracks, p.trackType) else [])
      + (if p.flags.searchSpawnable then BindingTracksOfKind(scene.bindings, p.spawnableGuid, p.trackType) else [])
  }

  /** The inner loop of both passes: appends the tracks of class `kind` from `tracks` to `acc`. */
  method AppendTracksOfKind(tracks: seq<Track>, kind: TrackKind, acc: seq<Track>) returns (result: seq<Track>)
    ensures result == acc + TracksOfKind(tracks, kind)
  {
    result := acc;
    var j := 0;
    while j < |tracks|
      invariant 0 <= j <= |tracks|
      invariant result == acc + TracksOfKind(tracks[..j], kind)
    {
      assert tracks[..j + 1][..j] == tracks[..j];
      if tracks[j].kind == kind {
        result := result + [tracks[j]];
      }
      j := j + 1;
    }
    assert tracks[..j] == tracks;
  }

  /** The binding pass: appends the requested-class tracks of every selected binding to `acc`. */
  method AppendBindingTracksOfKind(bindings: seq<Binding>, guid: Guid, kind: TrackKind, acc: seq<Track>)
    returns (result: seq<Track>)
    ensures result == acc + BindingTracksOfKind(bindings, guid, kind)
  {
    result := acc;
    var i := 0;
    while i < |bindings|
      invariant 0 <= i <= |bindings|
      invariant result == acc + BindingTracksOfKind(bindings[..i], guid, kind)
    {
      var binding := bindings[i];
      if guid.IsValid() && binding.guid != guid {
        ConcatMapPrefixStep(bindings, i, BindingPart(guid, kind), acc, []);
        i := i + 1;
        continue;
      }
      result := AppendTracksOfKind(binding.tracks, kind, result);
      ConcatMapPrefixStep(bindings, i, BindingPart(guid, kind), acc, TracksOfKind(binding.tracks, kind));
      i := i + 1;
    }
    assert bindings[..i] == bindings;
  }

  /** Appends the tracks the search finds to `outArray`, keeping what it already held. */
  method GetAllTracksOfType(p: TrackSearchParams, outArray: seq<Track>) returns (result: seq<Track>)
    ensures result == outArray + TracksOfType(p)
    ensures |result| >= |outArray| && result[..|outArray|] == outArray
    ensures forall k :: |outArray| <= k < |result| ==> result[k].kind == p.trackType
  {
    result := outArray;
    if p.movieScene.None? {
      return;
    }
    var scene := p.movieScene.value;
    if p.flags.searchNonSpawnable {
      result := AppendTracksOfKind(scene.tracks, p.trackType, result);
    }
    if p.flags.searchSpawnable {
      result := AppendBindingTracksOfKind(scene.bindings, p.spawnableGuid, p.trackType, result);
    }
    TracksOfTypeKind(p);
  }

  /** A track is kept exactly when it is in the input and of the requested class. */
  lemma {:induction false} TracksOfKindMembers(tracks: seq<Track>, kind: TrackKind, t: Track)
    ensures t in TracksOfKind(tracks, kind) <==> t in tracks && t.kind == kind
  {
    if |tracks| > 0 {
      TracksOfKindMembers(tracks[..|tracks| - 1], kind, t);
      assert tracks == tracks[..|tracks| - 1] + [tracks[|tracks| - 1]];
    }
  }

  /** Filtering commutes with concatenation, so the relative order of kept tracks is the input order. */
  lemma {:induction false} TracksOfKindAppend(a: seq<Track>, b: seq<Track>, kind: TrackKind)
    ensures TracksOfKind(a + b, kind) == TracksOfKind(a, kind) + TracksOfKind(b, kind)
  {
    if |b| == 0 {
      assert a + b == a;
    } else {
      assert (a + b)[..|a + b| - 1] == a + b[..|b| - 1];
      TracksOfKindAppend(a, b[..|b| - 1], kind);
    }
  }

  /** The binding part holds exactly the requested-class tracks of the selected bindings. */
  lemma {:induction false} BindingTracksMembers(bindings: seq<Binding>, guid: Guid, kind: TrackKind, t: Track)
    ensures t in BindingTracksOfKind(bindings, guid, kind)
        <==> exists i :: 0 <= i < |bindings| && BindingSelected(bindings[i], guid) && t in bindings[i].tracks && t.kind == kind
  {
    if |bindings| > 0 {
      var n := |bindings| - 1;
      BindingTracksMembers(bindings[..n], guid, kind, t);
      TracksOfKindMembers(bindings[n].tracks, kind, t);
      if t in BindingTracksOfKind(bindings, guid, kind) {
        if t in BindingTracksOfKind(bindings[..n], guid, kind) {
          var i :| 0 <= i < n && BindingSelected(bindings[..n][i], guid) && t in bindings[..n][i].tracks && t.kind == kind;
          assert bindings[i] == bindings[..n][i];
        }
      } else {
        forall i | 0 <= i < |bindings| && BindingSelected(bindings[i], guid) && t in bindings[i].tracks
          ensures t.kind != kind
        {
          if i < n {
            assert bindings[..n][i] == bindings[i];
          }
        }
      }
    }
  }

  lemma BindingTracksSnoc(bindings: seq<Binding>, b: Binding, guid: Guid, kind: TrackKind)
    ensures BindingTracksOfKind(bindings + [b], guid, kind)
         == BindingTracksOfKind(bindings, guid, kind) + (if BindingSelected(b, guid) then TracksOfKind(b.tracks, kind) else [])
  {
    ConcatMapSnoc(bindings, b, BindingPart(guid, kind));
  }

  /** Bindings contribute in binding order: the search over a concatenation is the concatenation of the searches. */
  lemma BindingTracksAppend(a: seq<Binding>, b: seq<Binding>, guid: Guid, kind: TrackKind)
    ensures BindingTracksOfKind(a + b, guid, kind) == BindingTracksOfKind(a, guid, kind) + BindingTracksOfKind(b, guid, kind)
  {
    ConcatMapAppend(a, b, BindingPart(guid, kind));
  }

  /** The bindings whose guid is `guid`, in their order. */
  function BindingsWithGuid(bindings: seq<Binding>, guid: Guid): (r: seq<Binding>)
    ensures forall k :: 0 <= k < |r| ==> r[k].guid == guid
  {
    if |bindings| == 0 then []
    else
      var last := bindings[|bindings| - 1];
      BindingsWithGuid(bindings[..|bindings| - 1], guid) + (if last.guid == guid then [last] else [])
  }

  /** With a valid guid, the search sees only the bindings with that guid, as an unrestricted search over them would. */
  lemma {:induction false} ValidGuidRestricts(bindings: seq<Binding>, guid: Guid, kind: TrackKind)
    requires guid.IsValid()
    ensures BindingTracksOfKind(bindings, guid, kind) == BindingTracksOfKind(BindingsWithGuid(bindings, guid), InvalidGuid, kind)
  {
    if |bindings| > 0 {
      var n := |bindings| - 1;
      var last := bindings[n];
      ValidGuidRestricts(bindings[..n], guid, kind);
      var prefix := BindingsWithGuid(bindings[..n], guid);
      if last.guid == guid {
        BindingTracksAppend(prefix, [last], InvalidGuid, kind);
        assert [last][..0] == [];
      } else {
        assert prefix + [] == prefix;
      }
    }
  }

  /** What one search appends: exactly the requested-class tracks of the visited collections. */
  lemma TracksOfTypeMembers(p: TrackSearchParams, t: Track)
    requires p.movieScene.Some?
    ensures t in TracksOfType(p)
        <==> t.kind == p.trackType
             && ((p.flags.searchNonSpawnable && t in p.movieScene.value.tracks)
                 || (p.flags.searchSpawnable
                     && exists i :: 0 <= i < |p.movieScene.value.bindings|
                                    && BindingSelected(p.movieScene.value.bindings[i], p.spawnableGuid)
                                    && t in p.movieScene.value.bindings[i].tracks))
  {
    var scene := p.movieScene.value;
    TracksOfKindMembers(scene.tracks, p.trackType, t);
    BindingTracksMembers(scene.bindings, p.spawnableGuid, p.trackType, t);
  }

  /** A search yields nothing exactly when no visited collection holds a track of the class. */
  lemma TracksOfTypeEmpty(p: TrackSearchParams)
    requires p.movieScene.Some?
    ensures |TracksOfType(p)| == 0
        <==> !(p.flags.searchNonSpawnable && exists t :: t in p.movieScene.value.tracks && t.kind == p.trackType)
             && !(p.flags.searchSpawnable
                  && exists i, t :: 0 <= i < |p.movieScene.value.bindings|
                                   && BindingSelected(p.movieScene.value.bindings[i], p.spawnableGuid)
                                   && t in p.movieScene.value.bindings[i].tracks && t.kind == p.trackType)
  {
    forall t {
      TracksOfTypeMembers(p, t);
    }
    if |TracksOfType(p)| > 0 {
      TracksOfTypeMembers(p, TracksOfType(p)[0]);
    }
  }

  /** Scene-level tracks come before every binding track. */
  lemma SceneTracksFirst(p: TrackSearchParams)
    requires p.movieScene.Some? && p.flags.searchNonSpawnable
    ensures var n := |TracksOfKind(p.movieScene.value.tracks, p.trackType)|;
            n <= |TracksOfType(p)| && TracksOfType(p)[..n] == TracksOfKind(p.movieScene.value.tracks, p.trackType)
  {
  }

  /** Every track a search yields has the requested class. */
  lemma TracksOfTypeKind(p: TrackSearchParams)
    ensures forall k :: 0 <= k < |TracksOfType(p)| ==> TracksOfType(p)[k].kind == p.trackType
  {
    if p.movieScene.Some? {
      forall k | 0 <= k < |TracksOfType(p)| ensures TracksOfType(p)[k].kind == p.trackType {
        TracksOfTypeMembers(p, TracksOfType(p)[k]);
      }
    }
  }
}
