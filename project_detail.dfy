/** The pure helpers of components/ProjectDetail.tsx: rewriting video and music links into
    embeddable ones, splitting an abstract at its keyword marker, and the small layout flags. */
module ProjectDetail {
  import opened Wrappers
  import opened Types
  import opened Strings

  // ------------------------------------------------------------ Google Drive

  /** A line terminator somewhere in `t`: what stops the regular-expression `.*`. */
  predicate HasLineTerminator(t: string)
  {
    '\n' in t || '\r' in t || '\U{2028}' in t || '\U{2029}' in t
  }

  /** The pattern `lit(\?.*)?$` matches at `i`: `lit` there, followed by the end of the text or
      by `?` and a rest without line terminators. */
  predicate TailMatchAt(s: string, lit: string, i: int)
  {
    OccursAt(s, lit, i) && (i + |lit| == |s| || (s[i + |lit|] == '?' && !HasLineTerminator(s[i + |lit| + 1..])))
  }

  /** The leftmost index at or after `from` where the tail pattern matches. */
  function FindTail(s: string, lit: string, from: nat): (r: Option<nat>)
    decreases |s| - from
    ensures r.Some? ==> from <= r.value && TailMatchAt(s, lit, r.value)
    ensures r.Some? ==> forall j :: from <= j < r.value ==> !TailMatchAt(s, lit, j)
    ensures r.None? ==> forall j :: from <= j ==> !TailMatchAt(s, lit, j)
  {
    if from + |lit| > |s| then None
    else if TailMatchAt(s, lit, from) then Some(from)
    else FindTail(s, lit, from + 1)
  }

  /** `s.replace(/lit(\?.*)?$/, rep)`: the match always runs to the end of the text. */
  function ReplaceTail(s: string, lit: string, rep: string): string
  {
    match FindTail(s, lit, 0)
    case None => s
    case Some(i) => s[..i] + rep
  }

  /** `s.replace(/suffix$/, rep)` for a pattern without wildcards. */
  function ReplaceSuffix(s: string, suffix: string, rep: string): string
  {
    if EndsWith(s, suffix) then s[..|s| - |suffix|] + rep else s
  }

  /** A share link turned into a preview link, by the three rewrites in order. */
  function DriveEmbed(url: string): string
  {
    var afterView := ReplaceTail(url, "/view", "/preview");
    var afterSharing := ReplaceTail(afterView, "/sharing", "/preview");
    ReplaceSuffix(afterSharing, "?usp=drive_link", "/preview")
  }

  /** The result is the URL, or a prefix of it followed by `/preview`. */
  predicate PreviewOf(r: string, url: string)
  {
    r == url || (EndsWith(r, "/preview") && StartsWith(url, r[..|r| - 8]))
  }

  /** The tail rewrite keeps the text before the leftmost match and puts `/preview` in place of
      the match and everything after it; without a match the text is kept. */
  lemma ReplaceTailPreview(s: string, lit: string)
    ensures var r := ReplaceTail(s, lit, "/preview"); PreviewOf(r, s) && (r == s || |r| + |lit| <= |s| + 8)
    ensures (forall j :: 0 <= j ==> !TailMatchAt(s, lit, j)) ==> ReplaceTail(s, lit, "/preview") == s
    ensures forall i :: TailMatchAt(s, lit, i) && (forall j :: 0 <= j < i ==> !TailMatchAt(s, lit, j)) ==>
      var r := ReplaceTail(s, lit, "/preview"); EndsWith(r, "/preview") && r[..|r| - 8] == s[..i]
  {
    var r := ReplaceTail(s, lit, "/preview");
    if FindTail(s, lit, 0).Some? {
      var i := FindTail(s, lit, 0).value;
      assert r[..|r| - 8] == s[..i];
      assert r[|r| - 8..] == "/preview";
    }
    forall i | TailMatchAt(s, lit, i) && (forall j :: 0 <= j < i ==> !TailMatchAt(s, lit, j))
      ensures EndsWith(r, "/preview") && r[..|r| - 8] == s[..i]
    {
      FindTailIs(s, lit, i);
      assert r[|r| - 8..] == "/preview";
    }
  }

  /** The suffix rewrite swaps a trailing `suffix` for `/preview`, so putting the suffix back in
      place of `/preview` gives the text again; without the suffix the text is kept. */
  lemma ReplaceSuffixPreview(s: string, suffix: string)
    ensures var r := ReplaceSuffix(s, suffix, "/preview"); PreviewOf(r, s) && (r == s || |r| + |suffix| == |s| + 8)
    ensures !EndsWith(s, suffix) ==> ReplaceSuffix(s, suffix, "/preview") == s
    ensures EndsWith(s, suffix) ==>
      var r := ReplaceSuffix(s, suffix, "/preview"); EndsWith(r, "/preview") && r[..|r| - 8] + suffix == s
  {
    var r := ReplaceSuffix(s, suffix, "/preview");
    if EndsWith(s, suffix) {
      assert r[..|r| - 8] == s[..|s| - |suffix|];
      assert r[|r| - 8..] == "/preview";
      assert s == s[..|s| - |suffix|] + s[|s| - |suffix|..];
    }
  }

  lemma PreviewOfTrans(r: string, m: string, url: string)
    requires PreviewOf(r, m) && PreviewOf(m, url) && |r| <= |m|
    ensures PreviewOf(r, url)
  {
    if r != m && m != url {
      assert r[..|r| - 8] == m[..|m| - 8][..|r| - 8];
    }
  }

  /** Each Drive rewrite keeps a prefix of the link and appends `/preview`, or leaves it alone. */
  lemma DriveEmbedSpec(url: string)
    ensures PreviewOf(DriveEmbed(url), url)
  {
    var afterView := ReplaceTail(url, "/view", "/preview");
    var afterSharing := ReplaceTail(afterView, "/sharing", "/preview");
    ReplaceTailPreview(url, "/view");
    ReplaceTailPreview(afterView, "/sharing");
    ReplaceSuffixPreview(afterSharing, "?usp=drive_link");
    PreviewOfTrans(afterSharing, afterView, url);
    PreviewOfTrans(DriveEmbed(url), afterSharing, url);
  }

  /** A tail match with none before it is the one the search reports. */
  lemma FindTailIs(s: string, lit: string, k: nat)
    requires TailMatchAt(s, lit, k)
    requires forall j :: 0 <= j < k ==> !TailMatchAt(s, lit, j)
    ensures FindTail(s, lit, 0) == Some(k)
  {
  }

  /** Without `lit` anywhere in `s` the tail rewrite has nothing to replace. */
  lemma NoTailWithout(s: string, lit: string)
    requires !Contains(s, lit)
    ensures ReplaceTail(s, lit, "/preview") == s
  {
    ContainsIff(s, lit);
  }

  /** A link that is already a preview link and has no query string is kept as it is. */
  lemma PreviewLinkKept(url: string)
    requires EndsWith(url, "/preview") && '?' !in url
    ensures ReplaceTail(url, "/view", "/preview") == url
    ensures DriveEmbed(url) == url
  {
    var n := |url|;
    assert url[n - 8..] == "/preview";
    forall j | 0 <= j ensures !TailMatchAt(url, "/view", j) {
      if j + 5 == n {
        assert url[j] == url[n - 8..][3];
        Mismatch(url, "/view", j, 0);
      }
    }
    forall j | 0 <= j ensures !TailMatchAt(url, "/sharing", j) {
      if j + 8 == n {
        Mismatch(url, "/sharing", j, 1);
      }
    }
    assert !EndsWith(url, "?usp=drive_link") by {
      if n >= 15 {
        assert url[n - 15] in url;
      }
    }
  }

  /** A share link `a/view`, optionally followed by a one-line query string, becomes the
      preview link `a/preview` when `a` holds no `?`. */
  lemma ViewLinkPreview(a: string, tail: string)
    requires '?' !in a
    requires tail == [] || (tail[0] == '?' && !HasLineTerminator(tail[1..]))
    ensures DriveEmbed(a + "/view" + tail) == a + "/preview"
  {
    var s := a + "/view" + tail;
    var head := a + "/view";
    assert s[..|head|] == head && s[|head|..] == tail;
    assert s[|a|..|head|] == "/view";
    forall j | 0 <= j < |a| ensures !TailMatchAt(s, "/view", j) {
      assert s[j + 5] == head[j + 5];
    }
    FindTailIs(s, "/view", |a|);
    assert s[..|a|] == a;
    var p := a + "/preview";
    assert p[|p| - 8..] == "/preview";
    PreviewLinkKept(p);
  }

  /** A link `a/sharing`, optionally followed by a one-line query string without a `w`, becomes
      the preview link `a/preview` when `a` holds no `?`: the `/view` rewrite finds nothing and
      the `/sharing` rewrite replaces the end. */
  lemma SharingLinkPreview(a: string, tail: string)
    requires '?' !in a
    requires tail == [] || (tail[0] == '?' && !HasLineTerminator(tail[1..]))
    requires 'w' !in tail
    ensures DriveEmbed(a + "/sharing" + tail) == a + "/preview"
  {
    var s := a + "/sharing" + tail;
    var t := "/sharing" + tail;
    assert s == a + t;
    assert s[|a|..|a| + 8] == "/sharing" && s[|a| + 8..] == tail;
    forall j | 0 <= j ensures !TailMatchAt(s, "/view", j) {
      if j + 4 >= |a| && j + 5 <= |s| {
        assert s[j + 4] == t[j + 4 - |a|];
        assert 'w' !in t;
        Mismatch(s, "/view", j, 4);
      } else if j + 5 < |a| {
        assert s[j + 5] == a[j + 5];
      }
    }
    assert FindTail(s, "/view", 0).None?;
    forall j | 0 <= j < |a| ensures !TailMatchAt(s, "/sharing", j) {
      if j + 8 < |a| {
        assert s[j + 8] == a[j + 8];
      } else {
        assert s[j + 8] == t[j + 8 - |a|];
      }
    }
    FindTailIs(s, "/sharing", |a|);
    assert s[..|a|] == a;
    var p := a + "/preview";
    assert p[|p| - 1] == 'w';
  }

  /** In `a + q`, with no `?` in `a` and `q` a query string holding no second `?`, the tail
      pattern `lit(\?.*)?$` matches nowhere when `a` does not end in `lit` and `q` does not end
      in the last character of `lit`. */
  lemma NoTailBeforeQuery(a: string, q: string, lit: string)
    requires '?' !in a && |q| > 0 && q[0] == '?' && '?' !in q[1..]
    requires !EndsWith(a, lit) && |lit| > 0 && lit[|lit| - 1] != q[|q| - 1]
    ensures forall j :: 0 <= j ==> !TailMatchAt(a + q, lit, j)
  {
    var s := a + q;
    forall j | 0 <= j ensures !TailMatchAt(s, lit, j) {
      var e := j + |lit|;
      if e == |s| {
        assert s[e - 1] == q[|q| - 1];
        Mismatch(s, lit, j, |lit| - 1);
      } else if e < |a| {
        assert s[e] == a[e];
      } else if e == |a| {
        assert s[j..e] == a[|a| - |lit|..];
      } else if e < |s| {
        assert s[e] == q[1..][e - |a| - 1];
      }
    }
  }

  /** A link `a?usp=drive_link` becomes the preview link `a/preview` when `a` holds no `?` and
      does not already end in `/view` or `/sharing`, either of which the earlier rewrites would
      take first. */
  lemma DriveLinkPreview(a: string)
    requires '?' !in a && !EndsWith(a, "/view") && !EndsWith(a, "/sharing")
    ensures DriveEmbed(a + "?usp=drive_link") == a + "/preview"
  {
    var q := "?usp=drive_link";
    var s := a + q;
    NoTailBeforeQuery(a, q, "/view");
    assert FindTail(s, "/view", 0).None?;
    NoTailBeforeQuery(a, q, "/sharing");
    assert FindTail(s, "/sharing", 0).None?;
    assert s[|s| - 15..] == q && s[..|s| - 15] == a;
  }

  // ------------------------------------------------------------ YouTube and Vimeo

  /** The video id: the text after the first of `youtu.be/`, `v=`, `embed/` that occurs, up to
      the first `?` or `#` (or `&` after `v=`). Empty when none occurs. */
  function YouTubeId(url: string): (id: string)
  {
    if Contains(url, "youtu.be/") then TakeUntil(SplitSecond(url, "youtu.be/").value, {'?', '#'})
    else if Contains(url, "v=") then TakeUntil(SplitSecond(url, "v=").value, {'&', '?', '#'})
    else if Contains(url, "embed/") then TakeUntil(SplitSecond(url, "embed/").value, {'?', '#'})
    else []
  }

  function YouTubeEmbed(id: string, origin: string): string
  {
    "https://www.youtube-nocookie.com/embed/" + id + "?rel=0&modestbranding=1&enablejsapi=1&origin=" + origin
  }

  function VimeoPlayer(id: string): string
  {
    "https://player.vimeo.com/video/" + id
  }

  /** `u.split('vimeo.com/')[1].split(/[?#]/)[0]`, where the first step is `undefined` when
      `vimeo.com/` does not occur. */
  function VimeoId(url: string): Option<string>
  {
    match SplitSecond(url, "vimeo.com/")
    case None => None
    case Some(rest) => Some(TakeUntil(rest, {'?', '#'}))
  }

  predicate IsYouTubeHost(url: string)
  {
    Contains(url, "youtube.com") || Contains(url, "youtu.be")
  }

  /** A call that either returns a link or throws. */
  datatype Outcome = Returned(value: string) | Threw

  /** The embed link as the component computes it, including the `TypeError` thrown when a
      link names `vimeo.com` without a following `/`. */
  function GetEmbedUrlAsWritten(url: Option<string>, origin: string): Outcome
  {
    if url.None? || url.value == [] then Returned([])
    else
      var u := url.value;
      if Contains(u, "drive.google.com") then Returned(DriveEmbed(u))
      else if IsYouTubeHost(u) && YouTubeId(u) != [] then Returned(YouTubeEmbed(YouTubeId(u), origin))
      else if Contains(u, "vimeo.com") then
        if Contains(u, "player.vimeo.com") then Returned(u)
        else match VimeoId(u)
          case None => Threw
          case Some(id) => if id != [] then Returned(VimeoPlayer(id)) else Returned(u)
      else Returned(u)
  }

  /** The embed link with the Vimeo case completed: a link without an id after `vimeo.com/`
      falls through and is returned as it is, like every other unrecognised link. */
  function GetEmbedUrl(url: Option<string>, origin: string): string
  {
    if url.None? || url.value == [] then []
    else
      var u := url.value;
      if Contains(u, "drive.google.com") then DriveEmbed(u)
      else if IsYouTubeHost(u) && YouTubeId(u) != [] then YouTubeEmbed(YouTubeId(u), origin)
      else if Contains(u, "vimeo.com") && !Contains(u, "player.vimeo.com") && VimeoId(u).Some? && VimeoId(u).value != [] then
        VimeoPlayer(VimeoId(u).value)
      else u
  }

  /** `id` is the piece of `url` that `url.split(sep)[1].split(/[stops]/)[0]` yields: it starts
      right after the first `sep`, holds no stop character, and runs up to the first stop
      character, the next `sep` or the end of the link, whichever comes first. */
  predicate IsPieceAfter(url: string, sep: string, stops: set<char>, id: string)
    requires |sep| > 0
  {
    && Contains(url, sep)
    && OccursAt(url, id, IndexOf(url, sep).value + |sep|)
    && (forall k :: 0 <= k < |id| ==> id[k] !in stops)
    && var part := SplitSecond(url, sep).value;
      StartsWith(part, id) && (|id| == |part| || part[|id|] in stops)
  }

  /** Only one piece fits that description. */
  lemma PieceUnique(url: string, sep: string, stops: set<char>, id1: string, id2: string)
    requires |sep| > 0 && IsPieceAfter(url, sep, stops, id1) && IsPieceAfter(url, sep, stops, id2)
    ensures id1 == id2
  {
    var part := SplitSecond(url, sep).value;
    assert |id1| == |id2|;
    assert id1 == part[..|id1|];
  }

  /** A prefix of a text found at `start` is found at `start` too. */
  lemma PrefixOccurs(s: string, r: string, start: int, id: string)
    requires OccursAt(s, r, start) && StartsWith(r, id)
    ensures OccursAt(s, id, start)
  {
    assert s[start..start + |id|] == s[start..start + |r|][..|id|];
  }

  /** The piece after the first separator, cut at a stop character, is that piece. */
  lemma PartPiece(url: string, sep: string, stops: set<char>)
    requires |sep| > 0 && Contains(url, sep)
    ensures IsPieceAfter(url, sep, stops, TakeUntil(SplitSecond(url, sep).value, stops))
  {
    var rest := SplitSecond(url, sep).value;
    var id := TakeUntil(rest, stops);
    assert IndexOf(url, sep).value == |SplitFirst(url, sep)|;
    PrefixOccurs(url, rest, |SplitFirst(url, sep)| + |sep|, id);
  }

  /** The id comes from the first marker in priority order that occurs: it is the piece after
      that marker's first occurrence, cut at `?` or `#` (and at `&` after `v=`); with no marker
      it is empty. */
  lemma YouTubeIdSpec(url: string)
    ensures var id := YouTubeId(url);
      && (Contains(url, "youtu.be/") ==> IsPieceAfter(url, "youtu.be/", {'?', '#'}, id))
      && (!Contains(url, "youtu.be/") && Contains(url, "v=") ==> IsPieceAfter(url, "v=", {'&', '?', '#'}, id))
      && (!Contains(url, "youtu.be/") && !Contains(url, "v=") && Contains(url, "embed/") ==>
            IsPieceAfter(url, "embed/", {'?', '#'}, id))
      && (!Contains(url, "youtu.be/") && !Contains(url, "v=") && !Contains(url, "embed/") ==> id == [])
  {
    if Contains(url, "youtu.be/") {
      PartPiece(url, "youtu.be/", {'?', '#'});
    } else if Contains(url, "v=") {
      PartPiece(url, "v=", {'&', '?', '#'});
    } else if Contains(url, "embed/") {
      PartPiece(url, "embed/", {'?', '#'});
    }
  }

  /** The Vimeo id exists exactly when the link holds `vimeo.com/`, and is then the piece after
      its first occurrence, cut at `?` or `#`. */
  lemma VimeoIdSpec(url: string)
    ensures VimeoId(url).Some? <==> Contains(url, "vimeo.com/")
    ensures VimeoId(url).Some? ==> IsPieceAfter(url, "vimeo.com/", {'?', '#'}, VimeoId(url).value)
  {
    if Contains(url, "vimeo.com/") {
      PartPiece(url, "vimeo.com/", {'?', '#'});
    }
  }

  /** The embed link's branches: Drive checked first and rewritten to a preview link, then a
      YouTube link with an id turned into the privacy-enhanced player, then a Vimeo link off the
      player host with an id turned into the player link, and anything else returned as it is. */
  lemma GetEmbedUrlSpec(url: string, origin: string)
    requires url != []
    ensures var r := GetEmbedUrl(Some(url), origin);
      && (Contains(url, "drive.google.com") ==> r == DriveEmbed(url) && PreviewOf(r, url))
      && (!Contains(url, "drive.google.com") && IsYouTubeHost(url) && YouTubeId(url) != [] ==>
            r == YouTubeEmbed(YouTubeId(url), origin))
      && (!Contains(url, "drive.google.com") && !(IsYouTubeHost(url) && YouTubeId(url) != [])
          && Contains(url, "vimeo.com") && !Contains(url, "player.vimeo.com") && Contains(url, "vimeo.com/")
          && VimeoId(url).value != [] ==>
            IsPieceAfter(url, "vimeo.com/", {'?', '#'}, VimeoId(url).value) && r == VimeoPlayer(VimeoId(url).value))
      && (!Contains(url, "drive.google.com") && !(IsYouTubeHost(url) && YouTubeId(url) != [])
          && (!Contains(url, "vimeo.com") || Contains(url, "player.vimeo.com") || !Contains(url, "vimeo.com/")
              || VimeoId(url).value == []) ==>
            r == url)
  {
    DriveEmbedSpec(url);
    VimeoIdSpec(url);
  }

  lemma EmbedUrlEmpty(origin: string)
    ensures GetEmbedUrl(None, origin) == [] && GetEmbedUrl(Some([]), origin) == []
    ensures GetEmbedUrlAsWritten(None, origin) == Returned([]) && GetEmbedUrlAsWritten(Some([]), origin) == Returned([])
  {
  }

  /** Where the component returns, the completed definition returns the same link; it throws
      exactly for a non-Drive, non-YouTube link that names `vimeo.com` but not the player host
      and has no `vimeo.com/`. */
  lemma EmbedAsWrittenAgrees(url: Option<string>, origin: string)
    ensures GetEmbedUrlAsWritten(url, origin).Returned? ==> GetEmbedUrlAsWritten(url, origin).value == GetEmbedUrl(url, origin)
    ensures GetEmbedUrlAsWritten(url, origin).Threw? <==>
      url.Some? && url.value != [] && !Contains(url.value, "drive.google.com")
      && !(IsYouTubeHost(url.value) && YouTubeId(url.value) != [])
      && Contains(url.value, "vimeo.com") && !Contains(url.value, "player.vimeo.com") && !Contains(url.value, "vimeo.com/")
  {
  }

  // ------------------------------------------------------------ Spotify

  const SPOTIFY_HOST := "open.spotify.com/"
  const SPOTIFY_EMBED := SPOTIFY_HOST + "embed/"

  /** The Spotify player link: the first `open.spotify.com/` gains `embed/`. */
  function GetSpotifyEmbedUrl(url: Option<string>): string
  {
    if url.None? || url.value == [] then []
    else ReplaceFirst(url.value, SPOTIFY_HOST, SPOTIFY_EMBED)
  }

  /** The rewrite inserts `embed/` right after the first `open.spotify.com/` and changes nothing
      else; a link without it is returned as it is. */
  lemma SpotifyEmbedSpec(url: string)
    requires url != []
    ensures var r := GetSpotifyEmbedUrl(Some(url));
      && (!Contains(url, SPOTIFY_HOST) ==> r == url)
      && (Contains(url, SPOTIFY_HOST) ==>
            var e := IndexOf(url, SPOTIFY_HOST).value + |SPOTIFY_HOST|;
            r == url[..e] + "embed/" + url[e..])
  {
    if Contains(url, SPOTIFY_HOST) {
      var i := IndexOf(url, SPOTIFY_HOST).value;
      InsertAfter(url, i, SPOTIFY_HOST, "embed/");
    }
  }

  /** Replacing an occurrence of `pat` by `pat + ins` inserts `ins` after it. */
  lemma InsertAfter(s: string, i: int, pat: string, ins: string)
    requires OccursAt(s, pat, i)
    ensures s[..i] + (pat + ins) + s[i + |pat|..] == s[..i + |pat|] + ins + s[i + |pat|..]
  {
    assert s[..i + |pat|] == s[..i] + pat by {
      assert s[i..i + |pat|] == pat;
    }
  }

  /** An `open.spotify.com/embed/` of the rewritten link that starts before the inserted one
      starts an `open.spotify.com/` of the original link. */
  lemma EarlierEmbedIsHost(url: string, i: int, j: int)
    requires OccursAt(url, SPOTIFY_HOST, i) && 0 <= j < i
    requires OccursAt(url[..i] + SPOTIFY_EMBED + url[i + |SPOTIFY_HOST|..], SPOTIFY_EMBED, j)
    ensures OccursAt(url, SPOTIFY_HOST, j)
  {
    var pat, long, n := SPOTIFY_HOST, SPOTIFY_EMBED, |SPOTIFY_HOST|;
    var r := url[..i] + long + url[i + n..];
    assert r[j..j + n] == long[..n] == pat;
    forall k | j <= k < j + n ensures r[k] == url[k] {
      if k >= i {
        assert r[k] == long[k - i] == pat[k - i] == url[k];
      }
    }
    assert url[j..j + n] == r[j..j + n];
  }

  /** Before the first `open.spotify.com/` of the link, the rewritten link has no
      `open.spotify.com/embed/`. */
  lemma NoEarlierEmbed(url: string, i: int, j: int)
    requires IndexOf(url, SPOTIFY_HOST) == Some(i) && 0 <= j < i
    ensures !OccursAt(url[..i] + SPOTIFY_EMBED + url[i + |SPOTIFY_HOST|..], SPOTIFY_EMBED, j)
  {
    if OccursAt(url[..i] + SPOTIFY_EMBED + url[i + |SPOTIFY_HOST|..], SPOTIFY_EMBED, j) {
      EarlierEmbedIsHost(url, i, j);
    }
  }

  /** In the rewritten link, the first `open.spotify.com/embed/` is where the link's first
      `open.spotify.com/` was. */
  lemma EmbedFoundAt(url: string, i: int)
    requires IndexOf(url, SPOTIFY_HOST) == Some(i)
    ensures IndexOf(url[..i] + SPOTIFY_EMBED + url[i + |SPOTIFY_HOST|..], SPOTIFY_EMBED) == Some(i)
  {
    var r := url[..i] + SPOTIFY_EMBED + url[i + |SPOTIFY_HOST|..];
    assert OccursAt(r, SPOTIFY_EMBED, i) by {
      assert r[i..i + |SPOTIFY_EMBED|] == SPOTIFY_EMBED;
    }
    forall j | 0 <= j < i ensures !OccursAt(r, SPOTIFY_EMBED, j) {
      NoEarlierEmbed(url, i, j);
    }
    IndexOfIs(r, SPOTIFY_EMBED, i);
  }

  /** A link without `open.spotify.com/` has no `open.spotify.com/embed/` either. */
  lemma NoHostNoEmbed(url: string)
    requires !Contains(url, SPOTIFY_HOST)
    ensures !Contains(url, SPOTIFY_EMBED)
  {
    if Contains(url, SPOTIFY_EMBED) {
      var n := |SPOTIFY_HOST|;
      var k := IndexOf(url, SPOTIFY_EMBED).value;
      assert url[k..k + n] == url[k..k + |SPOTIFY_EMBED|][..n] == SPOTIFY_EMBED[..n] == SPOTIFY_HOST;
      assert OccursAt(url, SPOTIFY_HOST, k);
      ContainsIff(url, SPOTIFY_HOST);
    }
  }

  /** Replacing the first `open.spotify.com/embed/` back gives the original link. */
  lemma SpotifyRoundTrip(url: string)
    requires url != []
    ensures ReplaceFirst(GetSpotifyEmbedUrl(Some(url)), SPOTIFY_EMBED, SPOTIFY_HOST) == url
  {
    var n := |SPOTIFY_HOST|;
    if Contains(url, SPOTIFY_HOST) {
      var i := IndexOf(url, SPOTIFY_HOST).value;
      var r := url[..i] + SPOTIFY_EMBED + url[i + n..];
      EmbedFoundAt(url, i);
      assert r[..i] == url[..i] && r[i + |SPOTIFY_EMBED|..] == url[i + n..];
      assert url == url[..i] + SPOTIFY_HOST + url[i + n..] by {
        assert url[i..i + n] == SPOTIFY_HOST;
      }
    } else {
      NoHostNoEmbed(url);
    }
  }

  // ------------------------------------------------------------ abstract, link and layout flags

  /** How an abstract is shown: as it is, or cut around its keyword marker. */
  datatype AbstractView = PlainText(text: string) | Marked(before: string, marker: string, after: string)

  /** The keyword marker: the first of the list that occurs, in list order. */
  function FindMarker(text: string): Option<string>
  {
    if Contains(text, "Keywords:") then Some("Keywords:")
    else if Contains(text, "Index Terms:") then Some("Index Terms:")
    else None
  }

  function RenderAbstract(text: string): AbstractView
  {
    match FindMarker(text)
    case None => PlainText(text)
    case Some(m) => CutAt(text, m)
  }

  /** The abstract cut around the first occurrence of a marker that it holds. */
  function CutAt(text: string, m: string): (v: AbstractView)
    requires |m| > 0 && Contains(text, m)
  {
    Marked(SplitFirst(text, m), m, SplitSecond(text, m).value)
  }

  /** With a marker, the text before its first occurrence, the marker and the text up to its
      second occurrence lie side by side from the start of the abstract, and cover all of it
      exactly when the marker occurs once; neither piece holds the marker. */
  lemma CutAtPieces(text: string, m: string)
    requires |m| > 0 && Contains(text, m)
    ensures var v := CutAt(text, m); v.Marked? && PiecesAround(text, m, v.before, v.after)
  {
    var b, a := SplitFirst(text, m), SplitSecond(text, m).value;
    assert CutAt(text, m) == Marked(b, m, a);
    SplitAdjacent(text, m, b, a);
  }

  /** Without a marker the text is shown as it is, and `Keywords:` wins whenever it occurs,
      wherever `Index Terms:` is. */
  lemma RenderAbstractChoice(text: string)
    ensures var v := RenderAbstract(text);
      && (!Contains(text, "Keywords:") && !Contains(text, "Index Terms:") <==> v == PlainText(text))
      && (Contains(text, "Keywords:") ==> v.Marked? && v.marker == "Keywords:")
      && (!Contains(text, "Keywords:") && Contains(text, "Index Terms:") ==> v.Marked? && v.marker == "Index Terms:")
      && (v.Marked? ==> v == CutAt(text, v.marker))
  {
  }

  /** A project is shown as a framed live site when it has a link and at most one image. */
  predicate IsIframeMode(p: Project)
  {
    p.externalUrl.Some? && p.externalUrl.value != [] && |p.images| <= 1
  }

  /** The JavaScript values that `&&` passes on here: a missing link, a link, or a boolean. */
  datatype JsValue = Undefined | Str(text: string) | Bool(b: bool)

  /** JavaScript truthiness: `undefined` and the empty string are falsy. */
  predicate Truthy(v: JsValue)
  {
    match v
    case Undefined => false
    case Str(t) => t != []
    case Bool(b) => b
  }

  function LinkValue(p: Project): JsValue
  {
    if p.externalUrl.None? then Undefined else Str(p.externalUrl.value)
  }

  /** `left && right`: the left operand when it is falsy, otherwise the right one. */
  function JsAnd(left: JsValue, right: JsValue): JsValue
  {
    if Truthy(left) then right else left
  }

  /** The value of `project.externalUrl && project.images.length <= 1`. */
  function IframeModeValue(p: Project): JsValue
  {
    JsAnd(LinkValue(p), Bool(|p.images| <= 1))
  }

  /** The framed page is shown, as the component tests it, when `isIframeMode && project.externalUrl`
      is truthy. */
  predicate ShowsFramedSite(p: Project)
  {
    Truthy(JsAnd(IframeModeValue(p), LinkValue(p)))
  }

  /** The component's value-level test agrees with the predicate: it is truthy exactly when the
      project has a non-empty link and at most one image. The page's second test of the link is
      redundant, so the framed page is shown exactly in frame mode. */
  lemma IframeModeCases(p: Project)
    ensures Truthy(IframeModeValue(p)) <==> IsIframeMode(p)
    ensures ShowsFramedSite(p) <==> IsIframeMode(p)
    ensures !IsIframeMode(p) ==> IframeModeValue(p) in {Undefined, Str([]), Bool(false)}
  {
  }

  /** The link as printed: one leading `http://` or `https://` removed. */
  function DisplayUrl(url: string): (r: string)
    ensures EndsWith(url, r)
  {
    if StartsWith(url, "https://") then url[8..]
    else if StartsWith(url, "http://") then url[7..]
    else url
  }

  /** Putting a scheme back gives the link; only one scheme is removed. */
  lemma DisplayUrlSpec(url: string, host: string)
    ensures DisplayUrl("https://" + host) == host && DisplayUrl("http://" + host) == host
    ensures !StartsWith(url, "http://") && !StartsWith(url, "https://") ==> DisplayUrl(url) == url
    ensures StartsWith(url, "https://") ==> "https://" + DisplayUrl(url) == url
    ensures StartsWith(url, "http://") ==> "http://" + DisplayUrl(url) == url
  {
    assert ("https://" + host)[..8] == "https://";
    assert ("http://" + host)[..7] == "http://";
    assert !StartsWith("http://" + host, "https://") by {
      assert ("http://" + host)[4] == ':';
    }
    if StartsWith(url, "https://") {
      assert url == url[..8] + url[8..];
      assert !StartsWith(url, "http://") by {
        assert url[4] == 's';
      }
    } else if StartsWith(url, "http://") {
      assert url == url[..7] + url[7..];
    }
  }

  function IsDualPhobia(p: Project): bool
  {
    p.id == "hci-1"
  }

  function VideoAtTop(p: Project): bool
  {
    !IsDualPhobia(p) && p.videoPosition != Some(Bottom)
  }

  function VideoAtBottom(p: Project): bool
  {
    !IsDualPhobia(p) && p.videoPosition == Some(Bottom)
  }

  /** The video slot is at the top or the bottom, never both; the Dual Phobia page has neither,
      every other page has exactly one, at the bottom only when asked for. */
  lemma VideoSlot(p: Project)
    ensures !(VideoAtTop(p) && VideoAtBottom(p))
    ensures p.id == "hci-1" ==> !VideoAtTop(p) && !VideoAtBottom(p)
    ensures p.id != "hci-1" ==> (VideoAtTop(p) || VideoAtBottom(p)) && (VideoAtBottom(p) <==> p.videoPosition == Some(Bottom))
  {
  }
}
