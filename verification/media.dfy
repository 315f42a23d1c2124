/**
 * Which directory entries the three scripts pick up: `Path.suffix` of the name, compared
 * exactly (case and all) against each script's sets of extensions.
 */
module Media {
  import opened Wrappers

  datatype Kind = Video | Photo

  /** A directory entry: its name and whether it is a regular file. */
  datatype Entry = Entry(name: string, isFile: bool)

  /** The last `.` of `s`, if there is one. */
  function LastDot(s: string): (r: Option<nat>)
    ensures r.None? <==> forall k :: 0 <= k < |s| ==> s[k] != '.'
    ensures r.Some? ==> r.value < |s| && s[r.value] == '.' && forall k :: r.value < k < |s| ==> s[k] != '.'
  {
    if |s| == 0 then None
    else if s[|s| - 1] == '.' then Some(|s| - 1)
    else LastDot(s[..|s| - 1])
  }

  /**
   * `Path(name).suffix`: from the last `.` on, unless that dot starts the name (a hidden
   * file such as ".mp4" has no suffix) or ends it.
   */
  function Suffix(name: string): (r: string)
    ensures |r| == 0 || (1 < |r| < |name| && r == name[|name| - |r|..] && r[0] == '.')
  {
    match LastDot(name)
    case Some(i) => if 0 < i < |name| - 1 then name[i..] else ""
    case None => ""
  }

  /** The video extensions; all three scripts use this set. */
  const VideoExtensions: set<string> :=
    {".mp4", ".mov", ".mkv", ".avi", ".m4v", ".MP4", ".MOV", ".MKV", ".AVI", ".M4V"}

  /** The photo extensions of the photo-and-video script. */
  const CreationPhotoExtensions: set<string> :=
    {".jpg", ".jpeg", ".png", ".heic", ".JPG", ".JPEG", ".PNG", ".HEIC"}

  /** The photo extensions of the shot-date script: no HEIC. */
  const ShotPhotoExtensions: set<string> :=
    {".jpg", ".jpeg", ".png", ".JPG", ".JPEG", ".PNG"}

  /** The photo-and-video script's classification: video first, then photo. */
  function CreationKind(name: string): Option<Kind> {
    var ext := Suffix(name);
    if ext in VideoExtensions then Some(Video)
    else if ext in CreationPhotoExtensions then Some(Photo)
    else None
  }

  /** The shot-date script's classification: photos only when exiftool is installed. */
  function ShotKind(name: string, exiftool: bool): Option<Kind> {
    var ext := Suffix(name);
    if ext in VideoExtensions then Some(Video)
    else if ext in ShotPhotoExtensions && exiftool then Some(Photo)
    else None
  }

  /** The shot-date script's classification for a given availability of exiftool. */
  function ShotKinds(exiftool: bool): string -> Option<Kind> {
    name => ShotKind(name, exiftool)
  }

  /** The regular files the classification keeps, with their kinds, in directory order. */
  function MediaFiles(entries: seq<Entry>, kind: string -> Option<Kind>): (r: seq<(Kind, string)>)
    ensures |r| <= |entries|
  {
    if |entries| == 0 then []
    else
      var e := entries[|entries| - 1];
      var init := MediaFiles(entries[..|entries| - 1], kind);
      if e.isFile && kind(e.name).Some? then init + [(kind(e.name).value, e.name)] else init
  }

  /** The video script's list: the regular files with a video extension, in directory order. */
  function VideoFiles(entries: seq<Entry>): (r: seq<string>)
    ensures |r| <= |entries|
  {
    if |entries| == 0 then []
    else
      var e := entries[|entries| - 1];
      var init := VideoFiles(entries[..|entries| - 1]);
      if e.isFile && Suffix(e.name) in VideoExtensions then init + [e.name] else init
  }

  /** The names of the videos of a classified list, in order. */
  function VideosOf(files: seq<(Kind, string)>): seq<string> {
    if |files| == 0 then []
    else
      var init := VideosOf(files[..|files| - 1]);
      var last := files[|files| - 1];
      if last.0 == Video then init + [last.1] else init
  }
}

module MediaProofs {
  import opened Wrappers
  import opened Media

  /**
   * An extension made of a dot and dot-free characters is a name's suffix exactly when the
   * name ends with it and has something before it.
   */
  lemma SuffixIs(name: string, ext: string)
    requires |ext| >= 2 && ext[0] == '.' && forall k :: 0 < k < |ext| ==> ext[k] != '.'
    ensures Suffix(name) == ext <==> |name| > |ext| && name[|name| - |ext|..] == ext
  {
    if |name| > |ext| && name[|name| - |ext|..] == ext {
      var i := |name| - |ext|;
      assert name[i] == ext[0];
      forall k | i < k < |name|
        ensures name[k] != '.'
      {
        assert name[k] == ext[k - i];
      }
      var d := LastDot(name);
      assert d.Some? && d.value == i;
    }
  }

  /** Every extension in the sets is a dot and dot-free letters and digits. */
  predicate WellFormedExtension(ext: string) {
    |ext| >= 2 && ext[0] == '.' && forall k :: 0 < k < |ext| ==> ext[k] != '.'
  }

  lemma ExtensionsWellFormed()
    ensures forall ext :: ext in VideoExtensions ==> WellFormedExtension(ext)
    ensures forall ext :: ext in CreationPhotoExtensions ==> WellFormedExtension(ext)
  {
  }

  /** The shot-date script's photo set is the other script's set less HEIC, in both spellings. */
  lemma ShotPhotosWithoutHeic()
    ensures ShotPhotoExtensions == CreationPhotoExtensions - {".heic", ".HEIC"}
    ensures forall ext :: ext in ShotPhotoExtensions ==> WellFormedExtension(ext)
  {
    ExtensionsWellFormed();
  }

  /** A name is a video for a script exactly when it ends with one of the video extensions after something else. */
  lemma VideoByEnding(name: string)
    ensures CreationKind(name) == Some(Video) <==>
      exists ext :: ext in VideoExtensions && |name| > |ext| && name[|name| - |ext|..] == ext
  {
    ExtensionsWellFormed();
    if CreationKind(name) == Some(Video) {
      var ext := Suffix(name);
      SuffixIs(name, ext);
    }
    forall ext | ext in VideoExtensions && |name| > |ext| && name[|name| - |ext|..] == ext
      ensures CreationKind(name) == Some(Video)
    {
      SuffixIs(name, ext);
    }
  }

  /** No name is both a video and a photo, so checking videos first changes nothing. */
  lemma KindsDisjoint()
    ensures VideoExtensions * CreationPhotoExtensions == {}
  {
  }

  /** The comparison is exact: ".Jpg" is neither a video nor a photo to any script. */
  lemma MixedCaseIgnored(name: string, exiftool: bool)
    requires Suffix(name) == ".Jpg"
    ensures CreationKind(name).None? && ShotKind(name, exiftool).None?
  {
  }

  /** A file named only by its extension, such as ".mp4", has no suffix and is never picked up. */
  lemma HiddenFileIgnored(name: string, exiftool: bool)
    requires |name| > 0 && name[0] == '.' && forall k :: 0 < k < |name| ==> name[k] != '.'
    ensures Suffix(name) == "" && CreationKind(name).None? && ShotKind(name, exiftool).None?
  {
    assert "" !in VideoExtensions && "" !in CreationPhotoExtensions;
  }

  /**
   * The shot-date script takes photos only when exiftool is installed, and then exactly the
   * photos the photo-and-video script takes other than HEIC; videos are the same for both.
   */
  lemma ShotAgainstCreation(name: string, exiftool: bool)
    ensures ShotKind(name, exiftool) == Some(Video) <==> CreationKind(name) == Some(Video)
    ensures ShotKind(name, exiftool) == Some(Photo) <==>
      exiftool && CreationKind(name) == Some(Photo) && Suffix(name) != ".heic" && Suffix(name) != ".HEIC"
  {
  }

  /** The list holds exactly the regular files the classification gives a kind, with that kind. */
  lemma {:induction false} MediaFilesMembers(entries: seq<Entry>, kind: string -> Option<Kind>)
    ensures forall p :: p in MediaFiles(entries, kind) <==>
      exists e :: e in entries && e.isFile && kind(e.name) == Some(p.0) && e.name == p.1
    decreases |entries|
  {
    if |entries| > 0 {
      var init, e := entries[..|entries| - 1], entries[|entries| - 1];
      MediaFilesMembers(init, kind);
      assert entries == init + [e];
    }
  }

  /** The video script's list holds exactly the regular files with a video extension. */
  lemma {:induction false} VideoFilesMembers(entries: seq<Entry>)
    ensures forall n :: n in VideoFiles(entries) <==>
      exists e :: e in entries && e.isFile && Suffix(e.name) in VideoExtensions && e.name == n
    decreases |entries|
  {
    if |entries| > 0 {
      var init, e := entries[..|entries| - 1], entries[|entries| - 1];
      VideoFilesMembers(init);
      assert entries == init + [e];
    }
  }

  /** The video script's list is the photo-and-video script's videos, in the same order. */
  lemma {:induction false} VideoFilesAgree(entries: seq<Entry>)
    ensures VideoFiles(entries) == VideosOf(MediaFiles(entries, CreationKind))
    decreases |entries|
  {
    if |entries| > 0 {
      var init := entries[..|entries| - 1];
      VideoFilesAgree(init);
      var files, before := MediaFiles(entries, CreationKind), MediaFiles(init, CreationKind);
      var e := entries[|entries| - 1];
      if e.isFile && CreationKind(e.name).Some? {
        assert files == before + [(CreationKind(e.name).value, e.name)];
        assert files[..|files| - 1] == before;
      } else {
        assert files == before;
      }
    }
  }
}
