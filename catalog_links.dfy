/** The embed rewrites applied to the kinds of link that the project catalog holds: Drive
    share and preview links, Vimeo player links and Spotify links, and the bare Vimeo host
    that the component's Vimeo branch cannot handle. */
module CatalogLinks {
  import opened Wrappers
  import opened Strings
  import opened ProjectDetail

  /** A Drive link `a/view`, with or without a one-line query string, is embedded as the
      file's `a/preview` link when `a` holds no `?`. */
  lemma DriveShareLink(a: string, tail: string, origin: string)
    requires Contains(a, "drive.google.com") && '?' !in a
    requires tail == [] || (tail[0] == '?' && !HasLineTerminator(tail[1..]))
    ensures GetEmbedUrl(Some(a + "/view" + tail), origin) == a + "/preview"
  {
    ContainsPrefix(a, "/view" + tail, "drive.google.com");
    assert a + "/view" + tail == a + ("/view" + tail);
    ViewLinkPreview(a, tail);
  }

  /** The same file linked as `a/preview` is embedded unchanged. */
  lemma DrivePreviewLink(a: string, origin: string)
    requires Contains(a, "drive.google.com") && '?' !in a
    ensures GetEmbedUrl(Some(a + "/preview"), origin) == a + "/preview"
  {
    var s := a + "/preview";
    ContainsPrefix(a, "/preview", "drive.google.com");
    assert s[|s| - 8..] == "/preview";
    PreviewLinkKept(s);
  }

  /** A link holding none of `d`, `y` and `l` names neither Drive, nor YouTube, nor the Vimeo
      player host. */
  lemma NoKnownHost(s: string)
    requires 'd' !in s && 'y' !in s && 'l' !in s
    ensures !Contains(s, "drive.google.com") && !IsYouTubeHost(s) && !Contains(s, "player.vimeo.com")
  {
    AbsentChar(s, "drive.google.com", 0);
    AbsentChar(s, "youtube.com", 0);
    AbsentChar(s, "youtu.be", 0);
    AbsentChar(s, "player.vimeo.com", 1);
  }

  lemma BareVimeoNoPath(s: string)
    requires s == "https://" + "vimeo.com"
    ensures Contains(s, "vimeo.com") && !Contains(s, "vimeo.com/")
  {
    assert OccursAt(s, "vimeo.com", 8);
    ContainsIff(s, "vimeo.com");
    NoOccurrenceIn("https://", "vimeo.com", "vimeo.com/", 0);
    ContainsIff(s, "vimeo.com/");
  }

  /** The bare Vimeo host `https://vimeo.com`: the component throws, while the completed
      definition returns the link as it is. */
  lemma BareVimeoThrows(s: string, origin: string)
    requires s == "https://" + "vimeo.com"
    ensures GetEmbedUrlAsWritten(Some(s), origin) == Threw
    ensures GetEmbedUrl(Some(s), origin) == s
  {
    assert 'd' !in s && 'y' !in s && 'l' !in s;
    NoKnownHost(s);
    BareVimeoNoPath(s);
  }

  predicate AllDigits(id: string)
  {
    forall k :: 0 <= k < |id| ==> '0' <= id[k] <= '9'
  }

  /** A link on the Vimeo player host that names neither Drive nor YouTube is kept. */
  lemma PlayerLinkKept(s: string, origin: string)
    requires !Contains(s, "drive.google.com") && !IsYouTubeHost(s) && Contains(s, "player.vimeo.com")
    ensures GetEmbedUrl(Some(s), origin) == s
  {
  }

  /** A link without `g` and `b` names neither Drive nor YouTube. */
  lemma NoDriveNorYouTube(s: string)
    requires 'g' !in s && 'b' !in s
    ensures !Contains(s, "drive.google.com") && !IsYouTubeHost(s)
  {
    AbsentChar(s, "drive.google.com", 6);
    AbsentChar(s, "youtube.com", 5);
    AbsentChar(s, "youtu.be", 6);
  }

  lemma PlayerLinkChars(id: string)
    requires AllDigits(id)
    ensures var s := "https://" + "player.vimeo.com" + "/video/" + id; 'g' !in s && 'b' !in s
  {
    assert 'g' !in id && 'b' !in id;
  }

  /** A Vimeo player link with a numeric video id is embedded unchanged. */
  lemma VimeoPlayerLink(id: string, origin: string)
    requires AllDigits(id)
    ensures GetEmbedUrl(Some("https://" + "player.vimeo.com" + "/video/" + id), origin)
      == "https://" + "player.vimeo.com" + "/video/" + id
  {
    var s := "https://" + "player.vimeo.com" + "/video/" + id;
    PlayerLinkChars(id);
    NoDriveNorYouTube(s);
    OccursInside("https://", "player.vimeo.com", "/video/" + id);
    assert s == "https://" + "player.vimeo.com" + ("/video/" + id);
    PlayerLinkKept(s, origin);
  }

  /** A character of a YouTube video id: a letter, a digit, `-` or `_`. */
  predicate IsVideoIdChar(c: char)
  {
    'a' <= c <= 'z' || 'A' <= c <= 'Z' || '0' <= c <= '9' || c == '-' || c == '_'
  }

  /** `drive.google.com` does not occur in `a + t` when `a` holds no `v` and `t` no `.`. */
  lemma NoDriveHost(a: string, t: string)
    requires 'v' !in a && '.' !in t
    ensures !Contains(a + t, "drive.google.com")
  {
    var s := a + t;
    forall j | 0 <= j ensures !OccursAt(s, "drive.google.com", j) {
      if j + 3 < |a| {
        assert s[j + 3] == a[j + 3];
        Mismatch(s, "drive.google.com", j, 3);
      } else if j + 16 <= |s| {
        assert s[j + 5] == t[j + 5 - |a|];
        Mismatch(s, "drive.google.com", j, 5);
      }
    }
    ContainsIff(s, "drive.google.com");
  }

  /** `youtu.be/` does not occur in `a + t` when it does not occur in `a`, `t` holds no `.` and
      no `/` among its first three characters. */
  lemma NoShortHost(a: string, t: string)
    requires !Contains(a, "youtu.be/") && '.' !in t && |t| >= 3 && '/' !in t[..3]
    ensures !Contains(a + t, "youtu.be/")
  {
    var s := a + t;
    forall j | 0 <= j && j + 9 <= |s| ensures !OccursAt(s, "youtu.be/", j) {
      if j + 5 >= |a| {
        assert s[j + 5] == t[j + 5 - |a|];
        Mismatch(s, "youtu.be/", j, 5);
      } else if j + 8 >= |a| {
        assert s[j + 8] == t[..3][j + 8 - |a|];
        Mismatch(s, "youtu.be/", j, 8);
      } else {
        ContainsIff(a, "youtu.be/");
        assert !OccursAt(a, "youtu.be/", j);
        assert s[j..j + 9] == a[j..j + 9];
      }
    }
    ContainsIff(s, "youtu.be/");
  }

  /** With no `d` in `a`, the first `embed/` of `a + "embed/" + id` is the one after `a`. */
  lemma FirstEmbed(a: string, id: string)
    requires 'd' !in a
    ensures IndexOf(a + "embed/" + id, "embed/") == Some(|a|)
  {
    var t := "embed/" + id;
    assert a + "embed/" + id == a + t;
    OccursInside(a, "embed/", id);
    var pre := a + t[..4];
    assert t[..4] == "embe";
    forall k | 0 <= k < |pre| ensures pre[k] != 'd' {
      if k < |a| {
        assert pre[k] == a[k];
      } else {
        assert pre[k] == "embe"[k - |a|];
      }
    }
    NoOccurrenceIn(a, t, "embed/", 4);
    IndexOfIs(a + t, "embed/", |a|);
  }

  /** With no `/` in `id`, no `embed/` of `a + "embed/" + id` starts after the first one. */
  lemma NoEmbedWithin(a: string, id: string, e: int)
    requires '/' !in id && |a| + 6 <= e
    ensures !OccursAt(a + "embed/" + id, "embed/", e)
  {
    var s := a + "embed/" + id;
    if e + 6 <= |s| {
      assert s[e + 5] == id[e + 5 - |a| - 6];
      Mismatch(s, "embed/", e, 5);
    }
  }

  /** In `a + "embed/" + id`, with no `d` in `a` and no `/` in `id`, the piece after the first
      `embed/` is all of `id`. */
  lemma EmbedPiece(a: string, id: string)
    requires 'd' !in a && '/' !in id
    ensures Contains(a + "embed/" + id, "embed/") && SplitSecond(a + "embed/" + id, "embed/").value == id
  {
    var s := a + "embed/" + id;
    FirstEmbed(a, id);
    assert |SplitFirst(s, "embed/")| == |a|;
    var part := SplitSecond(s, "embed/").value;
    var e := |a| + 6 + |part|;
    assert s[|a| + 6..] == id;
    NoEmbedWithin(a, id, e);
  }

  /** A link naming no Drive host, on a YouTube host and with a non-empty id, is embedded
      under that id. */
  lemma YouTubeBranch(s: string, id: string, origin: string)
    requires !Contains(s, "drive.google.com") && IsYouTubeHost(s) && YouTubeId(s) == id && id != []
    ensures GetEmbedUrl(Some(s), origin) == YouTubeEmbed(id, origin)
  {
  }

  /** A link with neither `youtu.be/` nor `v=` takes its id from the piece after `embed/`. */
  lemma EmbedMarkerId(s: string, id: string)
    requires !Contains(s, "youtu.be/") && !Contains(s, "v=") && Contains(s, "embed/")
    requires SplitSecond(s, "embed/").value == id && '?' !in id && '#' !in id
    ensures YouTubeId(s) == id
  {
    assert YouTubeId(s) == TakeUntil(id, {'?', '#'});
  }

  /** An `embed/` link `a + "embed/" + id` on a YouTube host embeds `id` in the privacy-enhanced
      player, when the part `a` before `embed/` holds no `d`, `v` or `=` and no `youtu.be/`, and
      the id is a non-empty run of id characters. */
  lemma YouTubeEmbedLink(a: string, id: string, origin: string)
    requires IsYouTubeHost(a) && 'd' !in a && 'v' !in a && '=' !in a && !Contains(a, "youtu.be/")
    requires id != [] && forall k :: 0 <= k < |id| ==> IsVideoIdChar(id[k])
    ensures GetEmbedUrl(Some(a + "embed/" + id), origin) == YouTubeEmbed(id, origin)
  {
    var t := "embed/" + id;
    var s := a + t;
    assert s == a + "embed/" + id;
    assert '.' !in t && '=' !in t && '/' !in id && '?' !in id && '#' !in id;
    if Contains(a, "youtube.com") {
      ContainsPrefix(a, t, "youtube.com");
    } else {
      ContainsPrefix(a, t, "youtu.be");
    }
    assert '=' !in s;
    AbsentChar(s, "v=", 1);
    NoDriveHost(a, t);
    assert t[..3] == "emb";
    NoShortHost(a, t);
    EmbedPiece(a, id);
    EmbedMarkerId(s, id);
    YouTubeBranch(s, id, origin);
  }

  /** The host part of the catalog's YouTube link names YouTube but not `youtu.be/`. */
  lemma CatalogYouTubeHost(a: string)
    requires a == "https://www." + "youtube.com" + "/"
    ensures IsYouTubeHost(a) && !Contains(a, "youtu.be/")
  {
    OccursInside("https://www.", "youtube.com", "/");
    NoOccurrenceIn("https://www.", "youtube.com" + "/", "youtu.be/", 0);
    assert a == "https://www." + ("youtube.com" + "/");
    forall j | 12 <= j ensures !OccursAt(a, "youtu.be/", j) {
      if j == 12 {
        Mismatch(a, "youtu.be/", j, 5);
      } else if j + 9 <= |a| {
        Mismatch(a, "youtu.be/", j, 0);
      }
    }
    ContainsIff(a, "youtu.be/");
  }

  lemma CatalogYouTubeChars(a: string, id: string)
    requires a == "https://www." + "youtube.com" + "/" && id == "r-H0cZzmMKs"
    ensures 'd' !in a && 'v' !in a && '=' !in a
    ensures id != [] && forall k :: 0 <= k < |id| ==> IsVideoIdChar(id[k])
  {
  }

  /** The YouTube link of the catalog, `https://www.youtube.com/embed/r-H0cZzmMKs`, is embedded
      as the privacy-enhanced player for the id `r-H0cZzmMKs`. */
  lemma CatalogYouTubeLink(a: string, id: string, origin: string)
    requires a == "https://www." + "youtube.com" + "/" && id == "r-H0cZzmMKs"
    ensures GetEmbedUrl(Some(a + "embed/" + id), origin) == YouTubeEmbed(id, origin)
  {
    CatalogYouTubeHost(a);
    CatalogYouTubeChars(a, id);
    YouTubeEmbedLink(a, id, origin);
  }

  /** The first `open.spotify.com/` of an `https` Spotify link is the host, at index 8. */
  lemma SpotifyHostFirst(rest: string)
    ensures IndexOf("https://" + SPOTIFY_HOST + rest, SPOTIFY_HOST) == Some(8)
  {
    var s := "https://" + SPOTIFY_HOST + rest;
    OccursInside("https://", SPOTIFY_HOST, rest);
    assert s == "https://" + (SPOTIFY_HOST + rest);
    NoOccurrenceIn("https://", SPOTIFY_HOST + rest, SPOTIFY_HOST, 0);
    IndexOfIs(s, SPOTIFY_HOST, 8);
  }

  /** Every `https` link on the Spotify host gains `embed/` right after the host. */
  lemma SpotifyHostLink(rest: string)
    ensures GetSpotifyEmbedUrl(Some("https://" + SPOTIFY_HOST + rest)) == "https://" + SPOTIFY_EMBED + rest
  {
    var s := "https://" + SPOTIFY_HOST + rest;
    SpotifyHostFirst(rest);
    SpotifyEmbedSpec(s);
    assert s[..25] == "https://" + SPOTIFY_HOST && s[25..] == rest;
    assert "https://" + SPOTIFY_EMBED + rest == "https://" + SPOTIFY_HOST + "embed/" + rest;
  }
}
