/**
 * The HD enhancement endpoint of api/hd.js: everything it decides about a
 * job from the query string and the URL (scale, mode, image or video, input
 * and output extensions, reply MIME type, the ffmpeg argument list), and
 * the handler that strings these together.  Downloading, the temporary
 * files and running ffmpeg are parameters: what the download gave, the
 * temporary directory, whether ffmpeg succeeds on a given argument list and
 * whether the output file could be read back.
 */
module Hd {
  import opened Wrappers
  import opened Text
  import opened Js
  import opened Query

  // ----- Node's path.extname (POSIX) -----

  /** `p` without its trailing slashes. */
  function StripTrailingSlashes(p: string): (r: string)
    ensures |r| <= |p| && r == p[..|r|]
    ensures r == [] || r[|r| - 1] != '/'
    ensures forall i :: |r| <= i < |p| ==> p[i] == '/'
  {
    if p != [] && p[|p| - 1] == '/' then StripTrailingSlashes(p[..|p| - 1]) else p
  }

  /** The last path segment: everything after the last slash. */
  function LastSegment(p: string): (seg: string)
    ensures '/' !in seg
    ensures |seg| <= |p| && seg == p[|p| - |seg|..]
    ensures |seg| == |p| || p[|p| - |seg| - 1] == '/'
  {
    p[LastIndexOf(p, '/') + 1..]
  }

  /**
   * The extension of one path segment: from its last dot on, unless that dot
   * starts the segment, there is none, or the segment is "..".
   */
  function SegmentExtension(seg: string): (ext: string)
    ensures ext == [] || (ext[0] == '.' && '.' !in ext[1..])
    ensures ext != [] ==> |ext| < |seg| && ext == seg[|seg| - |ext|..]
    ensures ext == [] <==> seg == ".." || forall i :: 0 < i < |seg| ==> seg[i] != '.'
  {
    var dot := LastIndexOf(seg, '.');
    if dot <= 0 then
      NoDotAfterStart(seg, dot);
      ""
    else if seg == ".." then ""
    else
      var ext := seg[dot..];
      assert ext[0] == seg[dot] == '.' && ext[1..] == seg[dot + 1..];
      ext
  }

  /** With the last dot at or before the start, no dot follows the first character. */
  lemma NoDotAfterStart(seg: string, dot: int)
    requires -1 <= dot <= 0 && dot < |seg| && '.' !in seg[dot + 1..]
    ensures forall i :: 0 < i < |seg| ==> seg[i] != '.'
  {
    forall i | 0 < i < |seg| ensures seg[i] != '.' {
      NoDotAt(seg, dot, i);
    }
  }

  lemma NoDotAt(seg: string, dot: int, i: int)
    requires -1 <= dot < i < |seg| && '.' !in seg[dot + 1..]
    ensures seg[i] != '.'
  {
    assert seg[i] == seg[dot + 1..][i - dot - 1];
  }

  /**
   * `path.extname`: the extension of the last segment, trailing slashes
   * ignored.  A query string in a URL is part of the segment and stays
   * attached.
   */
  function Extname(p: string): (ext: string)
    ensures ext == [] || (ext[0] == '.' && '/' !in ext && '.' !in ext[1..])
    ensures |ext| <= |p|
    ensures ext == SegmentExtension(LastSegment(StripTrailingSlashes(p)))
  {
    SegmentExtension(LastSegment(StripTrailingSlashes(p)))
  }

  // ----- extension and MIME helpers -----

  const ImageExtensions: seq<string> := [".png", ".jpg", ".jpeg", ".webp"]
  const VideoExtensions: seq<string> := [".mp4", ".mov", ".mkv", ".webm"]

  /** `isLikelyImageByExt`. */
  predicate IsLikelyImageByExt(u: string) {
    Lower(Extname(u)) in ImageExtensions
  }

  /** `isLikelyVideoByExt`. */
  predicate IsLikelyVideoByExt(u: string) {
    Lower(Extname(u)) in VideoExtensions
  }

  /** The MIME type holds one of the markers `extFromMime` looks for. */
  predicate MimeMarked(mime: string) {
    mime != "" &&
    (|| Contains(mime, "png") || Contains(mime, "jpeg") || Contains(mime, "jpg") || Contains(mime, "webp")
     || Contains(mime, "mp4") || Contains(mime, "quicktime") || Contains(mime, "x-matroska"))
  }

  /**
   * `extFromMime`: the MIME type is searched for fixed markers in a fixed
   * order; with no match the lowercased URL extension is used, or ".bin".
   * The result always starts with a dot.
   */
  function ExtFromMime(mime: string, url: string): (ext: string)
    ensures ext != [] && ext[0] == '.'
    ensures mime != "" && Contains(mime, "png") ==> ext == ".png"
    ensures mime != "" && !Contains(mime, "png") && (Contains(mime, "jpeg") || Contains(mime, "jpg")) ==> ext == ".jpg"
    ensures (mime != "" && !Contains(mime, "png") && !Contains(mime, "jpeg") && !Contains(mime, "jpg")
             && Contains(mime, "webp")) ==> ext == ".webp"
    ensures (mime != "" && !Contains(mime, "png") && !Contains(mime, "jpeg") && !Contains(mime, "jpg")
             && !Contains(mime, "webp") && Contains(mime, "mp4")) ==> ext == ".mp4"
    ensures (mime != "" && !Contains(mime, "png") && !Contains(mime, "jpeg") && !Contains(mime, "jpg")
             && !Contains(mime, "webp") && !Contains(mime, "mp4") && Contains(mime, "quicktime")) ==> ext == ".mov"
    ensures (mime != "" && !Contains(mime, "png") && !Contains(mime, "jpeg") && !Contains(mime, "jpg")
             && !Contains(mime, "webp") && !Contains(mime, "mp4") && !Contains(mime, "quicktime")
             && Contains(mime, "x-matroska")) ==> ext == ".mkv"
    ensures !MimeMarked(mime) && Extname(url) != "" ==> ext == Lower(Extname(url))
    ensures !MimeMarked(mime) && Extname(url) == "" ==> ext == ".bin"
  {
    if mime != "" && Contains(mime, "png") then ".png"
    else if mime != "" && (Contains(mime, "jpeg") || Contains(mime, "jpg")) then ".jpg"
    else if mime != "" && Contains(mime, "webp") then ".webp"
    else if mime != "" && Contains(mime, "mp4") then ".mp4"
    else if mime != "" && Contains(mime, "quicktime") then ".mov"
    else if mime != "" && Contains(mime, "x-matroska") then ".mkv"
    else
      var ext := Lower(Extname(url));
      if ext != "" then ext else ".bin"
  }

  datatype Kind = Image | Video

  /** `mimeFromExt`: a video is always MP4; an image is PNG, WebP or else JPEG by extension. */
  function MimeFromExt(ext: string, kind: Kind): (mime: string)
    ensures kind == Video <==> mime == "video/mp4"
    ensures kind == Image ==> (mime == "image/png" <==> Lower(ext) == ".png")
    ensures kind == Image ==> (mime == "image/webp" <==> Lower(ext) == ".webp")
    ensures mime in {"video/mp4", "image/png", "image/webp", "image/jpeg"}
  {
    var e := Lower(ext);
    if kind == Video then "video/mp4"
    else if e == ".png" then "image/png"
    else if e == ".webp" then "image/webp"
    else "image/jpeg"
  }

  /** `safeInt(v, def)`: `parseInt(v, 10)` when that is finite, else `def`. */
  function SafeInt(v: Option<string>, def: int): (n: int)
    ensures ParseInt(if v.Some? then v.value else "undefined").Finite? ==>
      n == ParseInt(if v.Some? then v.value else "undefined").value
    ensures !ParseInt(if v.Some? then v.value else "undefined").Finite? ==> n == def
  {
    // `parseInt(undefined)` reads the text "undefined", which has no digits
    match ParseInt(if v.Some? then v.value else "undefined")
    case Finite(n) => n
    case _ => def
  }

  /** The scale the handler uses: `Math.max(1, Math.min(4, safeInt(scale, 2)))`. */
  function EffectiveScale(v: Option<string>): (s: int)
    ensures 1 <= s <= 4
    ensures !ParseInt(if v.Some? then v.value else "undefined").Finite? ==> s == 2
    ensures ParseInt(if v.Some? then v.value else "undefined").Finite? ==>
      var n := ParseInt(if v.Some? then v.value else "undefined").value;
      s == (if n < 1 then 1 else if n > 4 then 4 else n)
  {
    var n := SafeInt(v, 2);
    var upper := if n < 4 then n else 4;
    if upper > 1 then upper else 1
  }

  /** The effective scale of the decimal text of a small integer is that integer. */
  lemma EffectiveScaleOfDigit(n: int)
    requires 1 <= n <= 4
    ensures EffectiveScale(Some(DecimalString(n))) == n
  {
    ParseIntDecimal(n, "");
    assert DecimalString(n) + "" == DecimalString(n);
  }

  /** A missing `scale` reads as the text "undefined", which has no digits, so the default 2 is used. */
  lemma MissingScaleIsDefault(def: int)
    ensures ParseInt("undefined") == NaN
    ensures SafeInt(None, def) == def
    ensures EffectiveScale(None) == 2
  {
    TrimStartNoop("undefined");
    assert DigitPrefix("undefined") == [];
  }

  /** A scale far beyond what a double holds parses to Infinity, so the default 2 is used, not 4. */
  lemma HugeScaleFallsBackToDefault(digits: string)
    requires digits != [] && AllDigits(digits) && DigitsValue(digits) >= OverflowThreshold
    ensures EffectiveScale(Some(digits)) == 2
  {
    assert digits[0] == DigitPrefix(digits)[0];
    TrimStartNoop(digits);
    DigitPrefixOfDigits(digits, "");
    assert digits + "" == digits;
  }

  datatype Mode = Fast | Quality

  /** `mode === "quality" ? "quality" : "fast"`. */
  function ModeOf(v: Option<string>): (m: Mode)
    ensures m == Quality <==> v == Some("quality")
  {
    if v == Some("quality") then Quality else Fast
  }

  /**
   * The kind decision of `run`: an explicit `type` of "video" or "image"
   * wins; otherwise a video extension on the URL gives video; everything
   * else is an image.
   */
  function KindOf(requested: Option<string>, url: string): (k: Kind)
    ensures k == Video <==> requested == Some("video") || (requested != Some("image") && IsLikelyVideoByExt(url))
  {
    if requested == Some("video") then Video
    else if requested == Some("image") then Image
    else if IsLikelyVideoByExt(url) then Video
    else Image
  }

  /** The output extension: ".mp4" for video; ".png" for an image only when the input is ".png". */
  function OutExt(kind: Kind, inExt: string): (ext: string)
    ensures ext in {".mp4", ".png", ".jpg"}
    ensures ext == ".mp4" <==> kind == Video
    ensures kind == Image && inExt == ".png" ==> ext == ".png"
    ensures ext == ".png" ==> kind == Image && inExt == ".png"
  {
    if kind.Video? then assert ".mp4"[1] != ".png"[1]; ".mp4"
    else if inExt == ".png" then ".png"
    else assert ".jpg"[1] != ".png"[1]; ".jpg"
  }

  // ----- ffmpeg arguments -----

  /** `Math.max(1, scale || 2)`: a zero scale counts as 2. */
  function ScaleFactor(scale: int): (s: int)
    ensures s >= 1
    ensures 1 <= scale ==> s == scale
    ensures scale == 0 ==> s == 2
    ensures scale < 0 ==> s == 1
  {
    var t := if scale == 0 then 2 else scale;
    if t > 1 then t else 1
  }

  /** The `-vf` filter chain: upscale by the factor, denoise, sharpen (less for video). */
  function FilterChain(s: int, kind: Kind): string {
    var amount := if kind == Image then "0.8" else "0.6";
    "scale=iw*" + (DecimalString(s) + ScaleTail(s, amount))
  }

  /** What follows the first scale factor in the filter chain. */
  function ScaleTail(s: int, amount: string): string {
    ":ih*" + DecimalString(s) + ":flags=lanczos"
    + ",hqdn3d=1.5:1.5:6:6"
    + ",unsharp=5:5:" + amount + ":5:5:0.0"
  }

  /** The filter chain starts by scaling both sides by the factor, which reads back as a number. */
  lemma FilterChainScale(s: int, kind: Kind)
    requires 1 <= s < OverflowThreshold
    ensures StartsWith(FilterChain(s, kind), "scale=iw*")
    ensures ParseInt(FilterChain(s, kind)[9..]) == Finite(s)
  {
    var rest := FilterChainAfterFactor(s, kind);
    ParseIntDecimal(s, rest);
  }

  /** Splits the filter chain after its first scale factor. */
  lemma FilterChainAfterFactor(s: int, kind: Kind) returns (rest: string)
    ensures rest != [] && rest[0] == ':'
    ensures StartsWith(FilterChain(s, kind), "scale=iw*")
    ensures FilterChain(s, kind)[9..] == DecimalString(s) + rest
  {
    rest := ScaleTail(s, if kind == Image then "0.8" else "0.6");
    DropPrefix("scale=iw*", DecimalString(s) + rest);
  }

  lemma DropPrefix(pre: string, x: string)
    ensures (pre + x)[..|pre|] == pre && (pre + x)[|pre|..] == x
  {
  }

  /** The argument list `enhanceWithFfmpeg` passes to ffmpeg. */
  function EnhanceArgs(inPath: string, outPath: string, kind: Kind, scale: int, mode: Mode): (args: seq<string>)
    ensures kind == Image ==> args == ["-y", "-i", inPath, "-vf", FilterChain(ScaleFactor(scale), Image), outPath]
    ensures kind == Video ==> |args| == 18 && args[..5] == ["-y", "-i", inPath, "-vf", FilterChain(ScaleFactor(scale), Video)]
    ensures kind == Video ==>
      args == ["-y", "-i", inPath, "-vf", FilterChain(ScaleFactor(scale), Video), "-c:v", "libx264",
               "-preset", if mode == Quality then "medium" else "veryfast",
               "-crf", if mode == Quality then "19" else "22",
               "-pix_fmt", "yuv420p", "-c:a", "aac", "-b:a", "128k", outPath]
    ensures kind.Video? && mode.Quality? ==> args[8] == "medium" && args[10] == "19"
    ensures kind.Video? && mode.Fast? ==> args[8] == "veryfast" && args[10] == "22"
    ensures args[0] == "-y" && args[|args| - 1] == outPath
  {
    var vf := FilterChain(ScaleFactor(scale), kind);
    if kind == Image then ["-y", "-i", inPath, "-vf", vf, outPath]
    else
      var preset := if mode == Quality then "medium" else "veryfast";
      var crf := if mode == Quality then "19" else "22";
      var args := ["-y", "-i", inPath, "-vf", vf, "-c:v", "libx264", "-preset", preset, "-crf", crf,
                   "-pix_fmt", "yuv420p", "-c:a", "aac", "-b:a", "128k", outPath];
      assert args[8] == preset && args[10] == crf;
      args
  }

  // ----- the handler -----

  /** The query parameters `run` reads (`type` is a keyword here, hence `requestedType`). */
  datatype HdQuery = HdQuery(apikey: Option<string>, url: Option<string>, scale: Option<string>,
                             mode: Option<string>, requestedType: Option<string>)

  /** What `global.getBuffer(url)` gave. */
  datatype Download =
    | Buffer                     // a buffer without an `error` property
    | FalsyResult                // null, undefined, ...
    | ErrorResult                // an object with a truthy `error`
    | Threw(message: string)     // the call itself threw

  /** Which file's bytes are sent back (base64-encoded). */
  datatype Payload = OutputFile | InputFile

  /** The JSON object `run` replies with. */
  datatype HdReply =
    | HdRejected(error: string)
    | HdDone(mime: string, payload: Payload, usedFfmpeg: bool, note: string)

  /** The message a failed download is reported with. */
  function DownloadError(d: Download): string {
    match d
    case Threw(message) => message
    case _ => "Failed to download"
  }

  /** `path.join(tmpDir, name)` for a directory made by `mkdtemp`. */
  function JoinPath(dir: string, name: string): string {
    dir + "/" + name
  }

  const FfmpegFailedNote: string := "ffmpeg not available or failed \U{2014} returned original."
  const ReadFailedNote: string := "output read failed \U{2014} returned original."

  /**
   * `run`: the API key is checked before `url`; then the job is planned, the
   * media downloaded and enhanced.  The reply's MIME type follows the kind
   * and the output extension; the enhanced file is returned when it can be
   * read, the original otherwise, with a note saying why.
   */
  method Run(q: HdQuery, allowList: Option<seq<string>>, download: Download, tmpDir: string,
             ffmpeg: seq<string> -> bool, outputReadable: bool) returns (reply: HdReply)
    ensures !ApiKeyAccepted(q.apikey, allowList) ==> reply == HdRejected("Invalid API key")
    ensures ApiKeyAccepted(q.apikey, allowList) && !Present(q.url) ==> reply == HdRejected("url is required")
    ensures ApiKeyAccepted(q.apikey, allowList) && Present(q.url) && !download.Buffer? ==>
      reply == HdRejected("Download failed: " + DownloadError(download))
    ensures ApiKeyAccepted(q.apikey, allowList) && Present(q.url) && download.Buffer? ==> reply.HdDone?
    ensures reply.HdDone? ==>
      && ApiKeyAccepted(q.apikey, allowList) && Present(q.url) && download.Buffer?
      && var url := q.url.value;
         var kind := KindOf(q.requestedType, url);
         var outExt := OutExt(kind, ExtFromMime("", url));
         var args := EnhanceArgs(JoinPath(tmpDir, "in" + ExtFromMime("", url)), JoinPath(tmpDir, "out" + outExt),
                                 kind, EffectiveScale(q.scale), ModeOf(q.mode));
         && reply.mime == MimeFromExt(outExt, kind)
         && reply.mime in {"video/mp4", "image/png", "image/jpeg"}
         && reply.usedFfmpeg == ffmpeg(args)
         && reply.payload == (if outputReadable then OutputFile else InputFile)
         && (reply.note == "" <==> ffmpeg(args) && outputReadable)
         && (!ffmpeg(args) ==> reply.note == FfmpegFailedNote)
         && (ffmpeg(args) && !outputReadable ==> reply.note == ReadFailedNote)
  {
    if !ApiKeyAccepted(q.apikey, allowList) {
      return HdRejected("Invalid API key");
    }
    if !Present(q.url) {
      return HdRejected("url is required");
    }
    var url := q.url.value;
    var s := EffectiveScale(q.scale);
    var m := ModeOf(q.mode);

    var kind := Image;
    if q.requestedType == Some("video") {
      kind := Video;
    } else if q.requestedType == Some("image") {
      kind := Image;
    } else if IsLikelyVideoByExt(url) {
      kind := Video;
    } else if IsLikelyImageByExt(url) {
      kind := Image;
    }

    if !download.Buffer? {
      return HdRejected("Download failed: " + DownloadError(download));
    }

    var inExt := ExtFromMime("", url);
    var outExt := if kind == Video then ".mp4" else if inExt == ".png" then ".png" else ".jpg";
    var inPath := JoinPath(tmpDir, "in" + inExt);
    var outPath := JoinPath(tmpDir, "out" + outExt);

    var usedFfmpeg := false;
    var note := "";
    if ffmpeg(EnhanceArgs(inPath, outPath, kind, s, m)) {
      usedFfmpeg := true;
    } else {
      // passthrough: the original is copied to the output path (a failed copy is ignored)
      usedFfmpeg := false;
      note := FfmpegFailedNote;
    }

    var payload := OutputFile;
    if !outputReadable {
      payload := InputFile;
      if note == "" {
        note := ReadFailedNote;
      }
    }

    reply := HdDone(MimeFromExt(outExt, kind), payload, usedFfmpeg, note);
  }

  /** `lastIndexOf` is pinned down by one occurrence with none after it. */
  lemma LastIndexOfIs(s: string, c: char, i: int)
    requires 0 <= i < |s| && s[i] == c && c !in s[i + 1..]
    ensures LastIndexOf(s, c) == i
  {
  }

  /** The last segment of a path that ends in a plain name after a slash is that name. */
  lemma LastSegmentOfFile(dir: string, name: string)
    requires name != [] && '/' !in name
    ensures StripTrailingSlashes(dir + "/" + name) == dir + "/" + name
    ensures LastSegment(dir + "/" + name) == name
  {
    var p := dir + "/" + name;
    assert p[|p| - 1] == name[|name| - 1];
    assert p[|dir| + 1..] == name;
    LastIndexOfIs(p, '/', |dir|);
  }

  /** In `stem + ext`, with a non-empty stem, the last dot is the one that starts `ext`. */
  lemma LastDotStartsExtension(stem: string, ext: string)
    requires stem != []
    requires |ext| >= 1 && ext[0] == '.' && '.' !in ext[1..]
    ensures LastIndexOf(stem + ext, '.') == |stem|
    ensures (stem + ext)[|stem|..] == ext
  {
    var seg := stem + ext;
    assert seg[|stem| + 1..] == ext[1..];
    LastIndexOfIs(seg, '.', |stem|);
  }

  /**
   * The extension of a file name under a directory: the part from its last
   * dot, provided a non-empty stem precedes that dot.
   */
  lemma ExtnameOfFile(dir: string, stem: string, ext: string)
    requires stem != [] && '/' !in stem
    requires |ext| >= 1 && ext[0] == '.' && '/' !in ext && '.' !in ext[1..]
    requires stem != "." || ext != "."
    ensures Extname(dir + "/" + stem + ext) == ext
  {
    var seg := stem + ext;
    assert dir + "/" + stem + ext == dir + "/" + seg;
    LastSegmentOfFile(dir, seg);
    LastDotStartsExtension(stem, ext);
    NotParentSegment(stem, ext);
    ExtnameOfSegment(dir + "/" + seg, seg, |stem|);
  }

  /** A stem and an extension make ".." only as "." and ".". */
  lemma NotParentSegment(stem: string, ext: string)
    requires stem != [] && ext != [] && ext[0] == '.'
    requires stem != "." || ext != "."
    ensures stem + ext != ".."
  {
    if |stem| == 1 && |ext| == 1 {
      assert ext == ".";
      assert stem != "." && stem == [stem[0]];
      assert (stem + ext)[0] != '.';
    }
  }

  /** `Extname` of a path whose last segment has its last dot past the start. */
  lemma ExtnameOfSegment(p: string, seg: string, dot: int)
    requires LastSegment(StripTrailingSlashes(p)) == seg
    requires 0 < dot < |seg| && LastIndexOf(seg, '.') == dot && seg != ".."
    ensures Extname(p) == seg[dot..]
  {
  }

  /** A name that starts with its only dot ("/tmp/.png") has no extension. */
  lemma ExtnameOfDotFile(dir: string, name: string)
    requires |name| >= 1 && name[0] == '.' && '/' !in name && '.' !in name[1..]
    ensures Extname(dir + "/" + name) == ""
    ensures ExtFromMime("", dir + "/" + name) == ".bin"
  {
    LastSegmentOfFile(dir, name);
    assert name[1..] == name[0 + 1..];
    LastIndexOfIs(name, '.', 0);
  }

  /** No extension is both a likely image and a likely video. */
  lemma LikelyKindsExclusive(u: string)
    ensures !(IsLikelyImageByExt(u) && IsLikelyVideoByExt(u))
  {
    ExtensionListsDisjoint(Lower(Extname(u)));
  }

  lemma ExtensionListsDisjoint(e: string)
    ensures e in ImageExtensions ==> e !in VideoExtensions
  {
    if e in ImageExtensions {
      assert e[1] in {'p', 'j', 'w'};
      if e[1] == 'w' {
        assert e[4] == 'p';
      }
    }
  }

  /** A file named with an image extension, in any letter case, is a likely image and is taken for an image. */
  lemma ImageFileIsImage(dir: string, stem: string, ext: string, requested: Option<string>)
    requires stem != [] && '/' !in stem
    requires |ext| >= 1 && ext[0] == '.' && '/' !in ext && '.' !in ext[1..]
    requires Lower(ext) in ImageExtensions
    requires requested != Some("video")
    ensures IsLikelyImageByExt(dir + "/" + stem + ext)
    ensures KindOf(requested, dir + "/" + stem + ext) == Image
  {
    ExtnameOfFile(dir, stem, ext);
    LikelyKindsExclusive(dir + "/" + stem + ext);
  }

  /** A name without a dot has no extension. */
  lemma ExtnameOfPlainName(dir: string, name: string)
    requires name != [] && '/' !in name && '.' !in name
    ensures Extname(dir + "/" + name) == ""
  {
    LastSegmentOfFile(dir, name);
  }

  /** Trailing slashes are ignored: "a/b.mp4/" has the extension of "a/b.mp4". */
  lemma ExtnameIgnoresTrailingSlash(p: string)
    ensures Extname(p + "/") == Extname(p)
  {
    assert (p + "/")[..|p + "/"| - 1] == p;
  }

  /** The parent segment ".." has no extension. */
  lemma ExtnameOfParent(dir: string)
    ensures Extname(dir + "/..") == ""
  {
    assert dir + "/.." == dir + "/" + "..";
    LastSegmentOfFile(dir, "..");
  }

  /** A file named with a video extension, in any letter case, is taken for a video when no type is given. */
  lemma VideoFileIsVideo(dir: string, stem: string, ext: string)
    requires stem != [] && '/' !in stem
    requires |ext| >= 1 && ext[0] == '.' && '/' !in ext && '.' !in ext[1..]
    requires Lower(ext) in VideoExtensions
    ensures IsLikelyVideoByExt(dir + "/" + stem + ext)
    ensures KindOf(None, dir + "/" + stem + ext) == Video
  {
    ExtnameOfFile(dir, stem, ext);
  }

  /**
   * A query string after the name stays on the extension, so such a URL is
   * recognised neither as a video nor as an image by its extension, and is
   * treated as an image when no type is given.
   */
  lemma QueryStringHidesExtension(dir: string, stem: string, ext: string, query: string)
    requires stem != [] && '/' !in stem
    requires |ext| >= 1 && ext[0] == '.' && '/' !in ext && '.' !in ext[1..]
    requires |query| >= 2 && query[0] == '?' && '/' !in query && '.' !in query
    ensures !IsLikelyVideoByExt(dir + "/" + stem + ext + query)
    ensures !IsLikelyImageByExt(dir + "/" + stem + ext + query)
    ensures KindOf(None, dir + "/" + stem + ext + query) == Image
  {
    var e := ext + query;
    assert e[1..] == ext[1..] + query;
    assert dir + "/" + stem + ext + query == dir + "/" + stem + e;
    ExtnameOfFile(dir, stem, e);
    var l := Lower(e);
    assert l[|ext|] == LowerChar(e[|ext|]) == '?';
    NoKnownExtensionHasQueryMark(l);
  }

  /** None of the recognised extensions holds a '?'. */
  lemma NoKnownExtensionHasQueryMark(x: string)
    requires '?' in x
    ensures x !in VideoExtensions && x !in ImageExtensions
  {
  }
}
