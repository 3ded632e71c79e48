/**
  The outer driver: for each entry of the video list, fetch its manifest,
  pick the highest-bitrate video and audio tracks, and download the video
  destination, then the audio destination; stop at the first missing or
  blank entry or at the first manifest that cannot be fetched.
 */
module Driver {

  import opened Wrappers
  import opened Paths
  import opened Disk
  import opened Fetcher
  import opened Coordinator

  /** The query that makes the manifest carry each track's init segment inline. */
  const InitSuffix: string := "?base64_init=1"

  /** Line 10's `endsWith`: `s` is some string followed by `suffix`. */
  function EndsWith(s: string, suffix: string): (r: bool)
    ensures r <==> exists p :: p + suffix == s
  {
    if |suffix| <= |s| && s[|s| - |suffix|..] == suffix then
      assert s[..|s| - |suffix|] + suffix == s;
      true
    else
      assert forall p :: (p + suffix)[|p|..] == suffix;
      false
  }

  /**
    The manifest URL with the init-segment query appended unless it already
    ends with it.
   */
  function NormaliseManifestUrl(u: string): (r: string)
    ensures EndsWith(r, InitSuffix)
    ensures u <= r && |r| <= |u| + |InitSuffix|
    ensures EndsWith(u, InitSuffix) <==> r == u
  {
    if EndsWith(u, InitSuffix) then u
    else
      assert (u + InitSuffix)[|u|..] == InitSuffix;
      u + InitSuffix
  }

  /** Normalising a normalised URL changes nothing. */
  lemma NormaliseIdempotent(u: string)
    ensures NormaliseManifestUrl(NormaliseManifestUrl(u)) == NormaliseManifestUrl(u)
  {
    var once := NormaliseManifestUrl(u);
    assert EndsWith(once, InitSuffix);
  }

  /** One rendition in the manifest; the init segment is already decoded. */
  datatype Track = Track(baseUrl: string, init: Bytes, segments: nat, avgBitrate: int)

  /**
    Index `i` is what an ascending stable sort by average bitrate followed by
    taking the last element yields: no track has a higher bitrate, and every
    later track has a strictly lower one.
   */
  predicate IsBest(tracks: seq<Track>, i: nat) {
    && i < |tracks|
    && (forall j :: 0 <= j < |tracks| ==> tracks[j].avgBitrate <= tracks[i].avgBitrate)
    && (forall j :: i < j < |tracks| ==> tracks[j].avgBitrate < tracks[i].avgBitrate)
  }

  /** Every track with the best track's bitrate comes no later than it. */
  lemma BestIsLast(tracks: seq<Track>, i: nat, j: nat)
    requires IsBest(tracks, i) && j < |tracks| && tracks[j].avgBitrate == tracks[i].avgBitrate
    ensures j <= i
  {
  }

  /** At most one index is the best, so the choice is determined. */
  lemma BestUnique(tracks: seq<Track>, i: nat, j: nat)
    requires IsBest(tracks, i) && IsBest(tracks, j)
    ensures i == j
  {
    BestIsLast(tracks, i, j);
    BestIsLast(tracks, j, i);
  }

  /**
    Lines 19-24 as a scan: the track the sort-and-pop yields, scanning from
    index `i` with `b` the best so far.
   */
  function BestFrom(tracks: seq<Track>, i: nat, b: nat): (r: nat)
    requires b < i <= |tracks|
    requires forall j :: 0 <= j < i ==> tracks[j].avgBitrate <= tracks[b].avgBitrate
    requires forall j :: b < j < i ==> tracks[j].avgBitrate < tracks[b].avgBitrate
    ensures IsBest(tracks, r)
    decreases |tracks| - i
  {
    if i == |tracks| then b
    else BestFrom(tracks, i + 1, if tracks[i].avgBitrate >= tracks[b].avgBitrate then i else b)
  }

  /**
    The track lines 19-24 pick, or `None` for an empty list (where the source
    goes on to dereference `undefined`).
   */
  function Best(tracks: seq<Track>): (r: Option<nat>)
    ensures r.None? <==> |tracks| == 0
    ensures r.Some? ==> IsBest(tracks, r.value)
  {
    if |tracks| == 0 then None else Some(BestFrom(tracks, 1, 0))
  }

  /** The part of a manifest the downloader reads. */
  datatype Manifest = Manifest(baseUrl: string, video: seq<Track>, audio: seq<Track>)

  /** One entry of the video list. */
  datatype Entry = Entry(name: string, url: string)

  /** An entry with neither a name nor a URL ends the list. */
  predicate IsBlank(e: Entry) {
    e.name == "" && e.url == ""
  }

  /** The video destination: the entry's name with `.m4v` appended (line 40). */
  function VideoName(e: Entry): string {
    e.name + ".m4v"
  }

  /** The audio destination: the entry's name with `.m4a` appended (line 51). */
  function AudioName(e: Entry): string {
    e.name + ".m4a"
  }

  lemma DestinationsDiffer(e: Entry)
    ensures VideoName(e) != AudioName(e)
  {
    assert VideoName(e)[|e.name| + 3] == 'v';
    assert AudioName(e)[|e.name| + 3] == 'a';
  }

  /** Every path the coordinator may touch for destination `name` with `n` segments. */
  function Touched(name: string, n: nat): set<Path> {
    PartSet(name, 0, n) + {Output(name), Flag(name)}
  }

  /**
    How loading one entry ends: its manifest could not be fetched (the
    error goes to the callback), a track list was empty (the source throws),
    or both destinations were processed.
   */
  datatype Loaded =
    | ManifestFailed
    | NoTrack
    | Loaded(fs: FileSystem, videoTrack: nat, audioTrack: nat, video: Run, audio: Run)

  /**
    Lines 8-63 (`loadVideo`): the best video track's destination is
    processed first and the best audio track's after it. The coordinator
    never reports an error, so the audio destination is processed even when
    the video one ran out of attempts.
   */
  function LoadVideo(fs: FileSystem, e: Entry, manifest: Option<Manifest>, videoNet: Network, audioNet: Network)
    : (r: Loaded)
    ensures r.ManifestFailed? <==> manifest.None?
    ensures r.Loaded? <==> manifest.Some? && |manifest.value.video| > 0 && |manifest.value.audio| > 0
    ensures r.Loaded? ==> IsBest(manifest.value.video, r.videoTrack) && IsBest(manifest.value.audio, r.audioTrack)
    ensures r.Loaded? ==>
      var v := manifest.value.video[r.videoTrack];
      var a := manifest.value.audio[r.audioTrack];
      && r.video == ProcessFile(fs, VideoName(e), v.init, v.segments, videoNet)
      && r.audio == ProcessFile(r.video.fs, AudioName(e), a.init, a.segments, audioNet)
      && r.fs == r.audio.fs
      && (r.video.skipped <==> AlreadyComplete(fs, VideoName(e)))
      && (r.audio.skipped <==> AlreadyComplete(fs, AudioName(e)))
      && AgreeAt(r.video.fs, r.fs, Output(VideoName(e)))
      && AgreeAt(r.video.fs, r.fs, Flag(VideoName(e)))
      && AgreeOutside(fs, r.fs, Touched(VideoName(e), v.segments) + Touched(AudioName(e), a.segments))
  {
    match manifest
    case None => ManifestFailed
    case Some(m) =>
      match (Best(m.video), Best(m.audio))
      case (Some(vi), Some(ai)) =>
        var v := m.video[vi];
        var a := m.audio[ai];
        var video := ProcessFile(fs, VideoName(e), v.init, v.segments, videoNet);
        var audio := ProcessFile(video.fs, AudioName(e), a.init, a.segments, audioNet);
        RunFrame(fs, VideoName(e), v.init, v.segments, videoNet);
        RunFrame(video.fs, AudioName(e), a.init, a.segments, audioNet);
        LoadFrames(fs, video, audio, e, v.segments, a.segments);
        Loaded(audio.fs, vi, ai, video, audio)
      case _ => NoTrack
  }

  /** A run of the coordinator touches nothing outside its own destination's paths. */
  lemma RunFrame(fs: FileSystem, name: string, init: Bytes, n: nat, net: Network)
    ensures AgreeOutside(fs, ProcessFile(fs, name, init, n, net).fs, Touched(name, n))
  {
  }

  /** The frame facts LoadVideo's contract rests on. */
  lemma LoadFrames(fs: FileSystem, video: Run, audio: Run, e: Entry, vn: nat, an: nat)
    requires AgreeOutside(fs, video.fs, Touched(VideoName(e), vn))
    requires AgreeOutside(video.fs, audio.fs, Touched(AudioName(e), an))
    ensures AgreeAt(fs, video.fs, Output(AudioName(e))) && AgreeAt(fs, video.fs, Flag(AudioName(e)))
    ensures AgreeAt(video.fs, audio.fs, Output(VideoName(e))) && AgreeAt(video.fs, audio.fs, Flag(VideoName(e)))
    ensures AgreeOutside(fs, audio.fs, Touched(VideoName(e), vn) + Touched(AudioName(e), an))
  {
    DestinationsDiffer(e);
    assert Output(AudioName(e)) !in Touched(VideoName(e), vn);
    assert Flag(AudioName(e)) !in Touched(VideoName(e), vn);
    assert Output(VideoName(e)) !in Touched(AudioName(e), an);
    assert Flag(VideoName(e)) !in Touched(AudioName(e), an);
    AgreeOutsideTrans(fs, video.fs, audio.fs, Touched(VideoName(e), vn), Touched(AudioName(e), an));
  }

  /**
    Lines 190-203 (`initJs`): the indices of the entries loaded, starting at
    `n`. The loop stops before a missing or blank entry, and after the first
    entry whose load reports an error (`failed`).
   */
  function InitJs(list: seq<Entry>, failed: nat -> bool, n: nat): (visited: seq<nat>)
    ensures forall k :: 0 <= k < |visited| ==> visited[k] == n + k
    ensures |visited| > 0 ==> n + |visited| <= |list|
    ensures forall k :: 0 <= k < |visited| ==> visited[k] < |list| && !IsBlank(list[visited[k]])
    ensures forall k :: 0 <= k < |visited| - 1 ==> !failed(visited[k])
    ensures var e := n + |visited|;
      (|visited| > 0 && failed(e - 1)) || e >= |list| || IsBlank(list[e])
    decreases |list| - n
  {
    if n >= |list| || IsBlank(list[n]) then []
    else if failed(n) then [n]
    else [n] + InitJs(list, failed, n + 1)
  }

  /**
    Entry `m` is loaded exactly when it comes at or after the start, every
    entry from the start up to `m` is present and not blank, and no load
    before it failed.
   */
  lemma {:induction false} VisitedIff(list: seq<Entry>, failed: nat -> bool, n: nat, m: nat)
    ensures m in InitJs(list, failed, n) <==>
      && n <= m < |list|
      && (forall j :: n <= j <= m ==> !IsBlank(list[j]))
      && (forall j :: n <= j < m ==> !failed(j))
    decreases |list| - n
  {
    if n >= |list| || IsBlank(list[n]) {
    } else if failed(n) {
    } else {
      VisitedIff(list, failed, n + 1, m);
      assert InitJs(list, failed, n) == [n] + InitJs(list, failed, n + 1);
    }
  }
}
