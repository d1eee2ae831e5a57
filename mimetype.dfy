/** `get_mimetype`: the Google Drive MIME type of a sharing link, chosen by
    substring tests on the link. */
module Mimetype {
  import opened Wrappers
  import opened Strings

  /** What every answer starts with. */
  const MimePrefix: string := "application/vnd.google-apps."

  const DocsHost: string := "https://docs.google.com/"
  const DriveHost: string := "https://drive.google.com/"
  const FileMarker: string := "/d/"

  /** `url.split(host)[1].split("/d/")[0]`: the path segment after the host
      and before `/d/`; `[1]` raises `IndexError` when the host is absent. */
  function Segment(url: string, host: string): (r: Result<string>)
    requires host != []
    ensures r.Err? ==> r.error == IndexError
  {
    var pieces := Split(url, host);
    if |pieces| < 2 then Err(IndexError) else Ok(Split(pieces[1], FileMarker)[0])
  }

  /** `get_mimetype(url)`; the two `print` calls are left out. */
  function GetMimetype(url: string): (r: Result<string>)
    ensures r.Ok? ==> MimePrefix <= r.value
  {
    if Contains(url, "docs.") then
      var segment :- Segment(url, DocsHost);
      if Contains(url, "/spreadsheets/") then Ok(MimePrefix + RStrip(segment, 's'))
      else Ok(MimePrefix + segment)
    else if Contains(url, "drive.") then
      if Contains(url, "com/drive/") then Ok(MimePrefix + "folder")
      else
        var segment :- Segment(url, DriveHost);
        Ok(MimePrefix + segment)
    else if Contains(url, "//script") then Ok(MimePrefix + "script")
    else if Contains(url, "//photos") then Ok(MimePrefix + "photo")
    else if Contains(url, "com/maps") then Ok(MimePrefix + "map")
    else if Contains(url, "//videos") || Contains(url, "//video") then Ok(MimePrefix + "video")
    else Ok(MimePrefix + "unknown")
  }

  // ---- Properties ----

  /** The first piece of a split is a prefix of the text without the
      separator in it, running up to the first occurrence or to the end. */
  lemma SplitHead(s: string, sep: string)
    requires sep != []
    ensures Split(s, sep)[0] <= s && !Contains(Split(s, sep)[0], sep)
    ensures Split(s, sep)[0] == s || OccursAt(s, sep, |Split(s, sep)[0]|)
    ensures forall k :: 0 <= k < |Split(s, sep)[0]| ==> !OccursAt(s, sep, k)
  {
    SplitPiecesAvoidSep(s, sep);
    match Find(s, sep, 0)
    case None =>
      assert Split(s, sep) == [s];
    case Some(i) =>
      assert Split(s, sep) == [s[..i]] + Split(s[i + |sep|..], sep);
  }

  /** An occurrence inside a prefix is an occurrence in the whole text. */
  lemma OccursInPrefix(a: string, b: string, sub: string, k: int)
    requires a <= b && OccursAt(a, sub, k)
    ensures OccursAt(b, sub, k)
  {
    assert b[k..k + |sub|] == a[k..k + |sub|];
  }

  /** When the separator occurs, the second piece of a split is the head
      of the text after its first occurrence. */
  lemma SplitSecond(s: string, sep: string)
    requires sep != [] && Contains(s, sep)
    ensures |Split(s, sep)| >= 2
    ensures Split(s, sep)[1] == Split(s[Find(s, sep, 0).value + |sep|..], sep)[0]
  {
    var i := Find(s, sep, 0).value;
    var rest := Split(s[i + |sep|..], sep);
    assert Split(s, sep) == [s[..i]] + rest;
  }

  /** When the host occurs in the link, the segment is the text after the first occurrence of the host, up to the end, the
      next occurrence of the host or the first `/d/`, whichever comes first:
      a prefix of that text, holding no `/d/`, with no occurrence of the host
      starting inside it, and followed by `/d/`, the host or nothing. */
  lemma SegmentSpec(url: string, host: string)
    requires host != [] && Contains(url, host)
    ensures Segment(url, host).Ok?
    ensures
      var rest := url[Find(url, host, 0).value + |host|..];
      var v := Segment(url, host).value;
      && v <= rest
      && !Contains(v, FileMarker)
      && (forall k :: 0 <= k < |v| ==> !OccursAt(rest, host, k))
      && (|v| == |rest| || OccursAt(rest, FileMarker, |v|) || OccursAt(rest, host, |v|))
  {
    SplitSecond(url, host);
    var rest := url[Find(url, host, 0).value + |host|..];
    var piece := Split(rest, host)[0];
    var v := Split(piece, FileMarker)[0];
    SplitHead(rest, host);
    SplitHead(piece, FileMarker);
    PrefixTransitive(v, piece, rest);
    if v != piece {
      OccursInPrefix(piece, rest, FileMarker, |v|);
    }
  }

  /** The segment exists exactly when the host occurs in the link; otherwise
      `[1]` raises `IndexError`. */
  lemma SegmentExists(url: string, host: string)
    requires host != []
    ensures Segment(url, host).Ok? <==> Contains(url, host)
  {
    SplitSingle(url, host);
  }

  lemma PrefixTransitive(a: string, b: string, c: string)
    requires a <= b && b <= c
    ensures a <= c
  {
  }

  /** An occurrence of a text holds an occurrence of each of its parts. */
  lemma ContainsWithin(s: string, outer: string, inner: string)
    requires Contains(s, outer) && Contains(outer, inner)
    ensures Contains(s, inner)
  {
    var i := Find(s, outer, 0).value;
    var j := Find(outer, inner, 0).value;
    forall k | 0 <= k < |inner|
      ensures s[i + j + k] == inner[k]
    {
      assert s[i..i + |outer|][j + k] == outer[j + k];
      assert outer[j..j + |inner|][k] == inner[k];
    }
    assert s[i + j..i + j + |inner|] == inner;
    OccursAtContains(s, inner, i + j);
  }

  /** A link fails exactly when it takes the `docs.` branch without the
      Docs host, or the `drive.` file branch without the Drive host; the
      failure is the `IndexError` of the missing second piece. */
  lemma GetMimetypeFails(url: string)
    ensures GetMimetype(url).Err? <==>
      (Contains(url, "docs.") && !Contains(url, DocsHost))
      || (!Contains(url, "docs.") && Contains(url, "drive.") && !Contains(url, "com/drive/")
          && !Contains(url, DriveHost))
    ensures GetMimetype(url).Err? ==> GetMimetype(url).error == IndexError
  {
    SegmentExists(url, DocsHost);
    SegmentExists(url, DriveHost);
  }

  /** A link on the Docs host is a Docs link: its type is the segment after
      the host, with trailing `s` removed for spreadsheets. */
  lemma DocsLink(url: string)
    requires Contains(url, DocsHost)
    ensures Segment(url, DocsHost).Ok?
    ensures !Contains(url, "/spreadsheets/") ==>
      GetMimetype(url) == Ok(MimePrefix + Segment(url, DocsHost).value)
    ensures Contains(url, "/spreadsheets/") ==>
      GetMimetype(url) == Ok(MimePrefix + RStrip(Segment(url, DocsHost).value, 's'))
  {
    assert Contains(DocsHost, "docs.") by {
      assert DocsHost[8..13] == "docs.";
      OccursAtContains(DocsHost, "docs.", 8);
    }
    ContainsWithin(url, DocsHost, "docs.");
    SegmentExists(url, DocsHost);
  }

  /** A link that is not a Docs link but holds `drive.` and `com/drive/` is
      a folder, whatever its host. */
  lemma DriveFolderLink(url: string)
    requires !Contains(url, "docs.") && Contains(url, "drive.") && Contains(url, "com/drive/")
    ensures GetMimetype(url) == Ok(MimePrefix + "folder")
  {
  }

  /** A link on the Drive host that is neither a Docs link nor a folder gets
      the segment after the host. */
  lemma DriveFileLink(url: string)
    requires !Contains(url, "docs.") && Contains(url, DriveHost) && !Contains(url, "com/drive/")
    ensures Segment(url, DriveHost).Ok?
    ensures GetMimetype(url) == Ok(MimePrefix + Segment(url, DriveHost).value)
  {
    assert Contains(DriveHost, "drive.") by {
      assert DriveHost[8..14] == "drive.";
      OccursAtContains(DriveHost, "drive.", 8);
    }
    ContainsWithin(url, DriveHost, "drive.");
    SegmentExists(url, DriveHost);
  }

  /** The remaining kinds, tested in order, for links that are neither Docs
      nor Drive links; these never fail. */
  lemma OtherLink(url: string)
    requires !Contains(url, "docs.") && !Contains(url, "drive.")
    ensures GetMimetype(url).Ok?
    ensures Contains(url, "//script") ==> GetMimetype(url).value == MimePrefix + "script"
    ensures !Contains(url, "//script") && Contains(url, "//photos") ==>
      GetMimetype(url).value == MimePrefix + "photo"
    ensures !Contains(url, "//script") && !Contains(url, "//photos") && Contains(url, "com/maps") ==>
      GetMimetype(url).value == MimePrefix + "map"
    ensures (!Contains(url, "//script") && !Contains(url, "//photos") && !Contains(url, "com/maps")
             && Contains(url, "//video")) ==> GetMimetype(url).value == MimePrefix + "video"
    ensures (!Contains(url, "//script") && !Contains(url, "//photos") && !Contains(url, "com/maps")
             && !Contains(url, "//video")) ==> GetMimetype(url).value == MimePrefix + "unknown"
  {
    if Contains(url, "//videos") {
      assert Contains("//videos", "//video") by {
        OccursAtContains("//videos", "//video", 0);
      }
      ContainsWithin(url, "//videos", "//video");
    }
  }
}
