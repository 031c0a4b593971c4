/**
 Choosing the video tracks of a play list (`choose_video_tracks`, `choose_playable`,
 `_video_codec_priority`, `_is_hdr_video` of the YouTube spider).
 */
module Tracks {
  import opened Options
  import opened Text
  import opened Ordering

  datatype Format = Format(
    itag: string, url: string, vcodec: string, acodec: string, height: int, bitrate: int,
    mimeType: string, codecs: string, hdrInfo: bool)

  datatype Track = Track(format: Format, name: string, isHdr: bool)

  predicate VideoOnly(f: Format) {
    f.vcodec != "none" && f.acodec == "none"
  }

  function CodecPriority(f: Format): int {
    var mime, codecs := Lower(f.mimeType), Lower(f.codecs);
    if Contains(mime, "vp9.2") || Contains(codecs, "vp09.02") then 4
    else if Contains(mime, "vp9") || Contains(codecs, "vp09") then 3
    else if Contains(codecs, "avc") || Contains(codecs, "h264") then 2
    else if Contains(codecs, "av01") then 1
    else 0
  }

  predicate IsHdr(f: Format) {
    Contains(Lower(f.mimeType), "vp9.2") || Contains(Lower(f.codecs), "vp09.02") || f.hdrInfo
  }

  predicate Risky(f: Format) {
    Contains(Lower(f.codecs), "av01")
  }

  // ----- choose_playable -----

  function ByCodec(): Format -> Rank {
    (f: Format) => Rank(CodecPriority(f), f.height, f.bitrate)
  }

  function ChoosePlayable(formats: seq<Format>, quality: string): Option<Format> {
    var all := Filter(VideoOnly, formats);
    var wanted :=
      if quality == "4k" then Filter((f: Format) => f.height >= 2160, all)
      else if quality == "2k" then Filter((f: Format) => 1440 <= f.height < 2160, all)
      else if quality == "1080p" then Filter((f: Format) => 1000 <= f.height < 1440, all)
      else if quality == "best" then
        var safe := Filter((f: Format) => !Risky(f), all);
        if safe != [] then safe else all
      else Filter((f: Format) => f.height >= 1080, all);
    var candidates := if wanted == [] && quality == "best" then all else wanted;
    if candidates == [] then None else Some(SortedDescending(ByCodec(), candidates)[0])
  }

  // ----- choose_video_tracks -----

  function Cap(quality: string): int {
    if quality == "best" || quality == "4k" then 2160 else if quality == "2k" then 1440 else 1080
  }

  /** The formats a predicate picks, or all of them if it picks none. */
  function Prefer(p: Format -> bool, formats: seq<Format>): seq<Format> {
    var picked := Filter(p, formats);
    if picked != [] then picked else formats
  }

  predicate FitsCap(quality: string, f: Format) {
    f.height <= Cap(quality)
  }

  predicate IsVp9(f: Format) {
    CodecPriority(f) >= 3
  }

  /** What is left to choose from. */
  function Candidates(formats: seq<Format>, quality: string): seq<Format> {
    Prefer(IsVp9, Prefer((f: Format) => FitsCap(quality, f), Filter(VideoOnly, formats)))
  }

  function BySize(): Format -> Rank {
    (f: Format) => Rank(f.height, f.bitrate, 0)
  }

  function OfClass(hdr: bool, formats: seq<Format>): seq<Format> {
    Filter((f: Format) => IsHdr(f) == hdr, formats)
  }

  function ClassName(hdr: bool): string {
    if hdr then "HDR" else "SDR"
  }

  function BestOfClass(hdr: bool, formats: seq<Format>): seq<Track> {
    var members := OfClass(hdr, formats);
    if members == [] then [] else [Track(SortedDescending(BySize(), members)[0], ClassName(hdr), hdr)]
  }

  function ChooseTracks(formats: seq<Format>, quality: string): seq<Track> {
    var videos := Candidates(formats, quality);
    var tracks := BestOfClass(false, videos) + BestOfClass(true, videos);
    if tracks != [] then tracks
    else match ChoosePlayable(formats, quality)
      case None => []
      case Some(f) => [Track(f, ClassName(IsHdr(f)), IsHdr(f))]
  }

  // ----- what filtering keeps -----

  /** A filter keeps exactly the elements that satisfy its predicate. */
  lemma {:induction false} FilterMembers(p: Format -> bool, formats: seq<Format>, f: Format)
    ensures f in Filter(p, formats) <==> f in formats && p(f)
  {
    if formats != [] {
      FilterMembers(p, formats[1..], f);
      assert formats == [formats[0]] + formats[1..];
    }
  }

  lemma FilterEmptyIff(p: Format -> bool, formats: seq<Format>)
    ensures Filter(p, formats) == [] <==> forall f | f in formats :: !p(f)
  {
    var picked := Filter(p, formats);
    if picked != [] {
      FilterMembers(p, formats, picked[0]);
    }
    forall f | f in formats && p(f) ensures f in picked {
      FilterMembers(p, formats, f);
    }
  }

  lemma PreferMembers(p: Format -> bool, formats: seq<Format>, f: Format)
    ensures f in Prefer(p, formats) <==> f in formats && (p(f) || forall g | g in formats :: !p(g))
    ensures Prefer(p, formats) == [] <==> formats == []
  {
    FilterMembers(p, formats, f);
    FilterEmptyIff(p, formats);
  }

  ghost predicate SomeFits(formats: seq<Format>, quality: string) {
    exists g | g in formats :: VideoOnly(g) && FitsCap(quality, g)
  }

  /** A video-only format that the cap leaves in: it fits, or none does. */
  ghost predicate UnderCap(formats: seq<Format>, quality: string, f: Format) {
    f in formats && VideoOnly(f) && (FitsCap(quality, f) || !SomeFits(formats, quality))
  }

  /** The candidates, exactly: under the cap if one is, and VP9 if one of those is. */
  lemma CandidateMembers(formats: seq<Format>, quality: string, f: Format)
    ensures f in Candidates(formats, quality)
       <==> UnderCap(formats, quality, f) && (IsVp9(f) || forall g | UnderCap(formats, quality, g) :: !IsVp9(g))
  {
    var fits := (g: Format) => FitsCap(quality, g);
    var videos := Filter(VideoOnly, formats);
    var capped := Prefer(fits, videos);
    forall g ensures g in capped <==> UnderCap(formats, quality, g) {
      PreferMembers(fits, videos, g);
      forall h ensures h in videos <==> h in formats && VideoOnly(h) {
        FilterMembers(VideoOnly, formats, h);
      }
    }
    PreferMembers(IsVp9, capped, f);
  }

  lemma CandidatesEmptyIff(formats: seq<Format>, quality: string)
    ensures Candidates(formats, quality) == [] <==> forall f | f in formats :: !VideoOnly(f)
  {
    var videos := Filter(VideoOnly, formats);
    FilterEmptyIff(VideoOnly, formats);
    if videos != [] {
      PreferMembers((g: Format) => FitsCap(quality, g), videos, videos[0]);
      PreferMembers(IsVp9, Prefer((g: Format) => FitsCap(quality, g), videos), videos[0]);
    }
  }

  // ----- what the fields of a format say -----

  /** HDR by the codec's name or by the metadata of its colours. */
  lemma HdrIff(f: Format)
    ensures IsHdr(f) <==> f.hdrInfo || Occurs("vp9.2", Lower(f.mimeType)) || Occurs("vp09.02", Lower(f.codecs))
  {
    ContainsIff(Lower(f.mimeType), "vp9.2");
    ContainsIff(Lower(f.codecs), "vp09.02");
  }

  /** VP9 by the codec's name, whatever its profile. */
  lemma Vp9Iff(f: Format)
    ensures IsVp9(f) <==> Occurs("vp9", Lower(f.mimeType)) || Occurs("vp09", Lower(f.codecs))
  {
    var mime, codecs := Lower(f.mimeType), Lower(f.codecs);
    ContainsIff(mime, "vp9");
    ContainsIff(codecs, "vp09");
    ContainsIff(mime, "vp9.2");
    ContainsIff(codecs, "vp09.02");
    if Contains(mime, "vp9.2") { FrontOccurs("vp9", "vp9.2", mime); }
    if Contains(codecs, "vp09.02") { FrontOccurs("vp09", "vp09.02", codecs); }
  }

  /** The codecs in the order they are preferred: HDR profile of VP9, VP9, H.264, AV1, any other. */
  lemma CodecOrder(f: Format)
    ensures CodecPriority(f) == 4 <==> Occurs("vp9.2", Lower(f.mimeType)) || Occurs("vp09.02", Lower(f.codecs))
    ensures CodecPriority(f) == 2
       <==> !IsVp9(f) && (Occurs("avc", Lower(f.codecs)) || Occurs("h264", Lower(f.codecs)))
    ensures CodecPriority(f) == 1
       <==> !IsVp9(f) && CodecPriority(f) != 2 && Occurs("av01", Lower(f.codecs))
    ensures 0 <= CodecPriority(f) <= 4
  {
    ContainsIff(Lower(f.mimeType), "vp9.2");
    ContainsIff(Lower(f.codecs), "vp09.02");
    ContainsIff(Lower(f.codecs), "avc");
    ContainsIff(Lower(f.codecs), "h264");
    ContainsIff(Lower(f.codecs), "av01");
  }

  // ----- choosing one playable format -----

  /** Video without sound, of the height the quality asks for; for the best, AV1 only if there is nothing else. */
  ghost predicate Wanted(formats: seq<Format>, quality: string, f: Format) {
    && f in formats && f.vcodec != "none" && f.acodec == "none"
    && (quality == "4k" ==> f.height >= 2160)
    && (quality == "2k" ==> 1440 <= f.height < 2160)
    && (quality == "1080p" ==> 1000 <= f.height < 1440)
    && (quality !in {"4k", "2k", "1080p", "best"} ==> f.height >= 1080)
    && (quality == "best" ==> Safe(f) || forall g | g in formats && VideoOnly(g) :: !Safe(g))
  }

  predicate Safe(f: Format) {
    !Contains(Lower(f.codecs), "av01")
  }

  /** The formats `ChoosePlayable` chooses among. */
  function Playable(formats: seq<Format>, quality: string): seq<Format> {
    var all := Filter(VideoOnly, formats);
    if quality == "4k" then Filter((f: Format) => f.height >= 2160, all)
    else if quality == "2k" then Filter((f: Format) => 1440 <= f.height < 2160, all)
    else if quality == "1080p" then Filter((f: Format) => 1000 <= f.height < 1440, all)
    else if quality == "best" then Prefer((f: Format) => !Risky(f), all)
    else Filter((f: Format) => f.height >= 1080, all)
  }

  lemma ChoosesPlayable(formats: seq<Format>, quality: string)
    ensures ChoosePlayable(formats, quality)
         == if Playable(formats, quality) == [] then None
            else Some(SortedDescending(ByCodec(), Playable(formats, quality))[0])
  {
  }

  lemma PlayableMembers(formats: seq<Format>, quality: string, f: Format)
    ensures f in Playable(formats, quality) <==> Wanted(formats, quality, f)
  {
    var all := Filter(VideoOnly, formats);
    forall g ensures g in all <==> g in formats && VideoOnly(g) {
      FilterMembers(VideoOnly, formats, g);
    }
    FilterMembers((f: Format) => f.height >= 2160, all, f);
    FilterMembers((f: Format) => 1440 <= f.height < 2160, all, f);
    FilterMembers((f: Format) => 1000 <= f.height < 1440, all, f);
    FilterMembers((f: Format) => f.height >= 1080, all, f);
    PreferMembers((f: Format) => !Risky(f), all, f);
  }

  /** Of a better codec, or of the same and higher, or as high with no lower bitrate. */
  predicate IsPreferred(f: Format, g: Format) {
    || CodecPriority(f) > CodecPriority(g)
    || (CodecPriority(f) == CodecPriority(g)
        && (f.height > g.height || (f.height == g.height && f.bitrate >= g.bitrate)))
  }

  /** The choice is a wanted format of the best codec and, within it, of the greatest height and then bitrate. */
  lemma PlayableIsBest(formats: seq<Format>, quality: string)
    ensures match ChoosePlayable(formats, quality)
            case None => forall g :: !Wanted(formats, quality, g)
            case Some(f) =>
              && Wanted(formats, quality, f)
              && forall g | Wanted(formats, quality, g) :: IsPreferred(f, g)
  {
    var candidates := Playable(formats, quality);
    ChoosesPlayable(formats, quality);
    forall g ensures g in candidates <==> Wanted(formats, quality, g) {
      PlayableMembers(formats, quality, g);
    }
    if candidates != [] {
      var k := FirstOfSorted(ByCodec(), candidates);
      forall g | g in candidates ensures IsPreferred(candidates[k], g) {
        var i :| 0 <= i < |candidates| && candidates[i] == g;
        assert AtLeast(ByCodec()(candidates[k]), ByCodec()(candidates[i]));
      }
    }
  }

  // ----- the tracks -----

  /** Of the class, and none of the class is higher, or as high with a greater bitrate. */
  ghost predicate IsBestOf(hdr: bool, formats: seq<Format>, f: Format) {
    && f in formats && IsHdr(f) == hdr
    && forall g | g in formats && IsHdr(g) == hdr ::
         f.height > g.height || (f.height == g.height && f.bitrate >= g.bitrate)
  }

  lemma BestOfClassIsBest(hdr: bool, formats: seq<Format>)
    ensures BestOfClass(hdr, formats) == [] <==> forall f | f in formats :: IsHdr(f) != hdr
    ensures forall t | t in BestOfClass(hdr, formats) ::
              IsBestOf(hdr, formats, t.format) && t.name == ClassName(hdr) && t.isHdr == hdr
  {
    var p := (f: Format) => IsHdr(f) == hdr;
    var members := OfClass(hdr, formats);
    FilterEmptyIff(p, formats);
    if members != [] {
      var k := FirstOfSorted(BySize(), members);
      FilterMembers(p, formats, members[k]);
      forall g | g in formats && IsHdr(g) == hdr
        ensures members[k].height > g.height || (members[k].height == g.height && members[k].bitrate >= g.bitrate)
      {
        FilterMembers(p, formats, g);
        var i :| 0 <= i < |members| && members[i] == g;
        assert AtLeast(BySize()(members[k]), BySize()(members[i]));
      }
    }
  }

  /** Without a video-only format there is nothing to fall back to, at any quality. */
  lemma NothingPlayable(formats: seq<Format>, quality: string)
    requires forall f | f in formats :: !VideoOnly(f)
    ensures ChoosePlayable(formats, quality) == None
  {
    FilterEmptyIff(VideoOnly, formats);
    assert Filter(VideoOnly, formats) == [];
  }

  /** The fallback never adds a track, and the result is empty exactly without a video-only format. */
  lemma FallbackIsDead(formats: seq<Format>, quality: string)
    ensures var videos := Candidates(formats, quality);
            ChooseTracks(formats, quality) == BestOfClass(false, videos) + BestOfClass(true, videos)
    ensures ChooseTracks(formats, quality) == [] <==> forall f | f in formats :: !VideoOnly(f)
  {
    var videos := Candidates(formats, quality);
    CandidatesEmptyIff(formats, quality);
    BestOfClassIsBest(false, videos);
    BestOfClassIsBest(true, videos);
    if videos == [] {
      NothingPlayable(formats, quality);
    } else {
      assert videos[0] in videos;
    }
  }

  /** The names of the classes. */
  lemma TrackNames(formats: seq<Format>, quality: string, t: Track)
    requires t in ChooseTracks(formats, quality)
    ensures t.name == (if t.isHdr then "HDR" else "SDR") && t.isHdr == IsHdr(t.format)
  {
    TracksAreBest(formats, quality);
  }

  /** At most an SDR track and then an HDR track, each named for its class and the best candidate of it. */
  lemma TracksAreBest(formats: seq<Format>, quality: string)
    ensures var tracks, videos := ChooseTracks(formats, quality), Candidates(formats, quality);
            && |tracks| <= 2
            && (forall t | t in tracks :: IsBestOf(t.isHdr, videos, t.format) && t.name == ClassName(t.isHdr))
            && (|tracks| == 2 ==> !tracks[0].isHdr && tracks[1].isHdr)
  {
    var videos := Candidates(formats, quality);
    var sdr, hdr := BestOfClass(false, videos), BestOfClass(true, videos);
    FallbackIsDead(formats, quality);
    BestOfClassIsBest(false, videos);
    BestOfClassIsBest(true, videos);
    assert forall t | t in ChooseTracks(formats, quality) :: t in sdr || t in hdr;
    if sdr != [] { assert sdr[0] in sdr; }
    if hdr != [] { assert hdr[0] in hdr; }
  }

  ghost predicate HasClass(hdr: bool, formats: seq<Format>) {
    exists f | f in formats :: IsHdr(f) == hdr
  }

  /** A class has a track exactly if it has a candidate. */
  lemma TrackForEachClass(formats: seq<Format>, quality: string, hdr: bool)
    ensures (exists t | t in ChooseTracks(formats, quality) :: t.isHdr == hdr)
       <==> HasClass(hdr, Candidates(formats, quality))
  {
    var videos := Candidates(formats, quality);
    var best := BestOfClass(hdr, videos);
    FallbackIsDead(formats, quality);
    TracksAreBest(formats, quality);
    BestOfClassIsBest(hdr, videos);
    if HasClass(hdr, videos) {
      assert best[0] in best && best[0] in ChooseTracks(formats, quality);
    }
  }

  /** The caps: 2160 lines for the best and for 4k, 1440 for 2k, 1080 for any other quality. */
  lemma TracksFitLines(formats: seq<Format>, quality: string, t: Track, f: Format)
    requires t in ChooseTracks(formats, quality)
    requires f in formats && f.vcodec != "none" && f.acodec == "none"
    ensures quality == "best" || quality == "4k" ==> f.height <= 2160 ==> t.format.height <= 2160
    ensures quality == "2k" ==> f.height <= 1440 ==> t.format.height <= 1440
    ensures quality !in {"best", "4k", "2k"} ==> f.height <= 1080 ==> t.format.height <= 1080
  {
    TracksFitCap(formats, quality, t);
    assert "4k"[0] != "best"[0] && "2k"[0] != "best"[0] && "2k"[0] != "4k"[0];
    if f.height <= Cap(quality) { assert VideoOnly(f) && FitsCap(quality, f); }
  }

  /** A format of the cap's height is not left out for it. */
  lemma CapIsReached(formats: seq<Format>, quality: string, f: Format)
    requires f in formats && VideoOnly(f) && IsVp9(f)
    requires f.height == if quality == "best" || quality == "4k" then 2160 else if quality == "2k" then 1440 else 1080
    ensures f in Candidates(formats, quality)
    ensures exists t | t in ChooseTracks(formats, quality) :: t.isHdr == IsHdr(f) && t.format.height >= f.height
  {
    CandidateMembers(formats, quality, f);
    TrackForEachClass(formats, quality, IsHdr(f));
    TracksAreBest(formats, quality);
  }

  /** No track exceeds the cap if a video-only format fits under it. */
  lemma TracksFitCap(formats: seq<Format>, quality: string, t: Track)
    requires t in ChooseTracks(formats, quality)
    ensures t.format in formats && VideoOnly(t.format)
    ensures SomeFits(formats, quality) ==> FitsCap(quality, t.format)
  {
    TracksAreBest(formats, quality);
    CandidateMembers(formats, quality, t.format);
  }
}
