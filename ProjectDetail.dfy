/**
 * The logic of the project-detail page, src/routes/ProjectDetail.jsx:
 * choosing the project for the route's slug, splitting the overview into
 * paragraphs, the lightbox gallery's index and open state, and the checks
 * that turn a video's `src` into a YouTube or Vimeo id.
 */
module ProjectDetail {
  import opened Wrappers
  import opened JsText

  datatype Image = Image(src: string, alt: Option<string>, caption: Option<string>)

  datatype Video = Video(
    kind: string,
    src: Option<string>,
    poster: Option<string>,
    loop: Option<bool>,
    muted: Option<bool>,
    controls: Option<bool>,
    caption: Option<string>)

  /** A record of the static project list; only the fields the page's logic reads. */
  datatype Project = Project(
    slug: string,
    title: string,
    overview: Option<string>,
    gallery: seq<Image>,
    video: Option<Video>,
    accent: Option<string>)

  // ---------------------------------------------------------------- lookup

  /** `Array.prototype.find` on slugs, from index `from` on: the first matching index. */
  function FindSlug(projects: seq<Project>, slug: string, from: nat): (r: Option<nat>)
    requires from <= |projects|
    decreases |projects| - from
    ensures r.Some? ==> from <= r.value < |projects| && projects[r.value].slug == slug
    ensures r.Some? ==> forall j :: from <= j < r.value ==> projects[j].slug != slug
    ensures r.None? ==> forall j :: from <= j < |projects| ==> projects[j].slug != slug
  {
    if from == |projects| then None
    else if projects[from].slug == slug then Some(from)
    else FindSlug(projects, slug, from + 1)
  }

  /**
   * `data.find((p) => p.slug === slug) || data[0]`: the first project with
   * the route's slug, else the first project; None (JavaScript's
   * `undefined`) only for an empty list.
   */
  function ProjectFor(projects: seq<Project>, slug: string): (r: Option<Project>)
    ensures r.None? <==> |projects| == 0
    ensures forall i :: (0 <= i < |projects| && projects[i].slug == slug &&
              (forall j :: 0 <= j < i ==> projects[j].slug != slug)) ==> r == Some(projects[i])
    ensures |projects| > 0 && (forall j :: 0 <= j < |projects| ==> projects[j].slug != slug) ==>
              r == Some(projects[0])
  {
    match FindSlug(projects, slug, 0)
    case Some(i) => Some(projects[i])
    case None => if |projects| > 0 then Some(projects[0]) else None
  }

  /** A project is always found by its own slug, unless an earlier record has the same slug. */
  lemma FindsOwnSlug(projects: seq<Project>, i: nat)
    requires i < |projects|
    requires forall j :: 0 <= j < i ==> projects[j].slug != projects[i].slug
    ensures ProjectFor(projects, projects[i].slug) == Some(projects[i])
  {
  }

  // ------------------------------------------------------------ paragraphs

  /** `.filter(Boolean)` on strings: keep the non-empty ones, in order and with their repeats. */
  function DropEmpty(parts: seq<string>): (r: seq<string>)
    ensures |r| <= |parts|
    ensures forall k :: 0 <= k < |r| ==> r[k] != ""
    ensures forall x :: x in r <==> x in parts && x != ""
    ensures multiset(r) == multiset(parts)["" := 0]
  {
    if parts == [] then []
    else
      assert parts == [parts[0]] + parts[1..];
      if parts[0] == "" then DropEmpty(parts[1..])
      else [parts[0]] + DropEmpty(parts[1..])
  }

  /** Filtering commutes with concatenation, so the kept strings keep their order. */
  lemma {:induction false} DropEmptyConcat(a: seq<string>, b: seq<string>)
    ensures DropEmpty(a + b) == DropEmpty(a) + DropEmpty(b)
  {
    if a == [] {
      assert a + b == b;
    } else {
      assert (a + b)[0] == a[0] && (a + b)[1..] == a[1..] + b;
      DropEmptyConcat(a[1..], b);
    }
  }

  /** `.map((s) => s.trim())`. */
  function TrimAll(parts: seq<string>): (r: seq<string>)
    ensures |r| == |parts|
    ensures forall k :: 0 <= k < |r| ==> r[k] == Trim(parts[k])
  {
    seq(|parts|, k requires 0 <= k < |parts| => Trim(parts[k]))
  }

  /**
   * `splitParas(text = '')`: None stands for an `undefined` argument. The
   * lemmas below say what every paragraph looks like.
   */
  function SplitParas(text: Option<string>): (paras: seq<string>)
    ensures forall k :: 0 <= k < |paras| ==> paras[k] != ""
    ensures text.GetOr("") == "" ==> paras == []
  {
    assert SplitBlankLines("") == [""];
    DropEmpty(TrimAll(SplitBlankLines(text.GetOr(""))))
  }

  /**
   * Every paragraph is non-empty, is its own trim, and holds no blank line
   * (no two consecutive newlines).
   */
  lemma ParagraphsAreClean(text: Option<string>)
    ensures forall p :: p in SplitParas(text) ==> p != "" && Trim(p) == p && NoBlankLine(p)
  {
    var pieces := SplitBlankLines(text.GetOr(""));
    var trimmed := TrimAll(pieces);
    forall p | p in SplitParas(text)
      ensures p != "" && Trim(p) == p && NoBlankLine(p)
    {
      assert p in trimmed;
      var k :| 0 <= k < |trimmed| && trimmed[k] == p;
      TrimIdempotent(pieces[k]);
      TrimKeepsNoBlankLine(pieces[k]);
    }
  }

  /** Trimming cannot create a blank line. */
  lemma TrimKeepsNoBlankLine(s: string)
    requires NoBlankLine(s)
    ensures NoBlankLine(Trim(s))
  {
    var r, a := Trim(s), TrimStart(s);
    forall i | 0 <= i < |r| ensures !IsBlankAt(r, i) {
      assert IsBlankAt(r, i) ==> IsBlankAt(s, a + i);
    }
  }

  /** A missing or empty overview has no paragraphs. */
  lemma NoTextNoParagraphs()
    ensures SplitParas(None) == []
    ensures SplitParas(Some("")) == []
  {
    assert SplitBlankLines("") == [""];
  }

  /**
   * A text without a blank line is one paragraph, its trim: single newlines
   * inside a paragraph are kept.
   */
  lemma SingleParagraph(text: string)
    requires NoBlankLine(text)
    ensures SplitParas(Some(text)) == if Trim(text) == "" then [] else [Trim(text)]
  {
    SplitIsIdentityIffNoBlank(text);
    assert TrimAll([text]) == [Trim(text)];
  }

  /** The split step of the example below: the run of three newlines is one separator. */
  lemma SplitExamplePieces()
    ensures SplitBlankLines(" one\ntwo\n\n\nthree\n") == [" one\ntwo", "three\n"]
  {
    var s := " one\ntwo\n\n\nthree\n";
    assert s[4] == '\n' && s[5] == 't' && s[8] == s[9] == s[10] == '\n' && s[11] == 't';
    assert forall j :: 0 <= j < 8 ==> !IsBlankAt(s, j);
    assert IsBlankAt(s, 8);
    assert FindBlank(s, 0) == 8;
    assert RunEnd(s, 8) == 11;
    var b := s[11..];
    assert s[..8] == " one\ntwo" && b == "three\n";
    assert FindBlank(b, 0) == |b|;
  }

  /** The trim step of the example below. */
  lemma TrimExamplePieces()
    ensures Trim(" one\ntwo") == "one\ntwo" && Trim("three\n") == "three"
  {
    var a, b := " one\ntwo", "three\n";
    assert TrimStart(a) == 1;
    assert a[1..] == "one\ntwo";
    assert TrimEnd("one\ntwo") == 7;
    assert TrimStart(b) == 0;
    assert TrimEnd(b) == 5;
  }

  /** The filter step of the example below: two non-empty strings are both kept, in order. */
  lemma DropEmptyExample()
    ensures DropEmpty(["one\ntwo", "three"]) == ["one\ntwo", "three"]
  {
    DropEmptyConcat(["one\ntwo"], ["three"]);
    assert ["one\ntwo"] + ["three"] == ["one\ntwo", "three"];
  }

  /** Two paragraphs separated by a run of three newlines, the first holding a line break. */
  lemma SplitParasExample()
    ensures SplitParas(Some(" one\ntwo\n\n\nthree\n")) == ["one\ntwo", "three"]
  {
    SplitExamplePieces();
    TrimExamplePieces();
    DropEmptyExample();
    assert TrimAll([" one\ntwo", "three\n"]) == ["one\ntwo", "three"];
  }

  // --------------------------------------------------------------- gallery

  /**
   * JavaScript's `%` for a positive divisor: the remainder takes the sign of
   * the dividend.
   */
  function JsRem(a: int, b: int): (r: int)
    requires b > 0
    ensures a >= 0 ==> 0 <= r < b && r == a % b
    ensures a < 0 ==> -b < r <= 0
  {
    if a >= 0 then a % b else -((-a) % b)
  }

  /** The `next` update `(i + 1) % images.length`: one step forward, wrapping to 0. */
  function NextIndex(i: int, n: int): (r: int)
    requires 0 <= i < n
    ensures 0 <= r < n
    ensures r == if i == n - 1 then 0 else i + 1
  {
    JsRem(i + 1, n)
  }

  /** The `prev` update `(i - 1 + images.length) % images.length`: one step back, wrapping to the last. */
  function PrevIndex(i: int, n: int): (r: int)
    requires 0 <= i < n
    ensures 0 <= r < n
    ensures r == if i == 0 then n - 1 else i - 1
  {
    JsRem(i - 1 + n, n)
  }

  lemma PrevUndoesNext(i: int, n: int)
    requires 0 <= i < n
    ensures PrevIndex(NextIndex(i, n), n) == i
    ensures NextIndex(PrevIndex(i, n), n) == i
  {
  }

  /** `k` successive `next` steps from `i`. */
  function NextSteps(i: int, k: nat, n: int): (r: int)
    requires 0 <= i < n
    ensures 0 <= r < n
  {
    if k == 0 then i else NextIndex(NextSteps(i, k - 1, n), n)
  }

  // Two arithmetic facts stated on their own so that the solver sees them
  // without the rest of the context; the remainder proofs below rely on them.

  lemma MulAtLeast(a: int, n: int)
    requires a >= 1 && n > 0
    ensures a * n >= n
  {
  }

  lemma DivMod(x: int, n: int)
    requires n > 0
    ensures x == (x / n) * n + x % n && 0 <= x % n < n
  {
  }

  /** Euclidean division is unique: a decomposition x == q * n + r with 0 <= r < n fixes x % n. */
  lemma ModOfDecomposition(x: int, n: int, q: int, r: int)
    requires n > 0 && 0 <= r < n && x == q * n + r
    ensures x % n == r
  {
    DivMod(x, n);
    var q', r' := x / n, x % n;
    assert (q - q') * n == r' - r;
    if q > q' {
      MulAtLeast(q - q', n);
    } else if q < q' {
      MulAtLeast(q' - q, n);
    }
  }

  /** One `next` step on a residue is the residue of the successor. */
  lemma NextIndexOfMod(x: int, n: int)
    requires x >= 0 && n > 0
    ensures NextIndex(x % n, n) == (x + 1) % n
  {
    DivMod(x, n);
    var q, r := x / n, x % n;
    if r == n - 1 {
      assert x + 1 == (q + 1) * n + 0;
      ModOfDecomposition(x + 1, n, q + 1, 0);
    } else {
      ModOfDecomposition(x + 1, n, q, r + 1);
    }
  }

  /** `k` steps forward land on `(i + k) mod n`. */
  lemma {:induction false} NextStepsShift(i: int, k: nat, n: int)
    requires 0 <= i < n
    ensures NextSteps(i, k, n) == (i + k) % n
  {
    if k == 0 {
      ModOfDecomposition(i, n, 0, i);
    } else {
      NextStepsShift(i, k - 1, n);
      NextIndexOfMod(i + k - 1, n);
    }
  }

  /** Stepping forward once per image returns to the starting image. */
  lemma FullCycle(i: int, n: int)
    requires 0 <= i < n
    ensures NextSteps(i, n, n) == i
  {
    NextStepsShift(i, n, n);
    ModOfDecomposition(i + n, n, 1, i);
  }

  /**
   * The lightbox: which image is shown (`idx`) and whether the overlay is
   * open. The page renders it only for a project with at least one image.
   */
  class Gallery {
    const images: seq<Image>
    var open: bool
    var idx: int

    /** The shown index is always a valid index into `images`. */
    ghost predicate Valid()
      reads this
    {
      |images| > 0 && 0 <= idx < |images|
    }

    constructor (images: seq<Image>)
      requires |images| > 0
      ensures Valid()
      ensures this.images == images && !open && idx == 0
    {
      this.images := images;
      open := false;
      idx := 0;
    }

    /** `show(i)` from the thumbnail of image `i`. */
    method Show(i: int)
      requires Valid() && 0 <= i < |images|
      modifies this
      ensures Valid()
      ensures idx == i && open
    {
      idx := i;
      open := true;
    }

    /** `hide()`: the overlay fades out and then closes. */
    method Hide()
      requires Valid()
      modifies this
      ensures Valid()
      ensures !open && idx == old(idx)
    {
      open := false;
    }

    method Prev()
      requires Valid()
      modifies this
      ensures Valid()
      ensures idx == PrevIndex(old(idx), |images|) && open == old(open)
    {
      idx := JsRem(idx - 1 + |images|, |images|);
    }

    method Next()
      requires Valid()
      modifies this
      ensures Valid()
      ensures idx == NextIndex(old(idx), |images|) && open == old(open)
    {
      idx := JsRem(idx + 1, |images|);
    }

    /**
     * The keydown listener, attached only while the lightbox is open:
     * Escape closes it, ArrowLeft and ArrowRight step through the images,
     * and every other key is ignored.
     */
    method OnKey(key: string)
      requires Valid()
      modifies this
      ensures Valid()
      ensures !old(open) ==> open == old(open) && idx == old(idx)
      ensures old(open) && key == "Escape" ==> !open && idx == old(idx)
      ensures old(open) && key == "ArrowLeft" ==> open && idx == PrevIndex(old(idx), |images|)
      ensures old(open) && key == "ArrowRight" ==> open && idx == NextIndex(old(idx), |images|)
      ensures key != "Escape" && key != "ArrowLeft" && key != "ArrowRight" ==>
                open == old(open) && idx == old(idx)
    {
      if open {
        if key == "Escape" { Hide(); }
        if key == "ArrowLeft" { Prev(); }
        if key == "ArrowRight" { Next(); }
      }
    }

    /** The image the open lightbox renders, `images[idx]`. */
    method Current() returns (img: Image)
      requires Valid() && open
      ensures img in images && img == images[idx]
    {
      img := images[idx];
    }
  }

  // ----------------------------------------------------------------- video

  /** A character of the class [\w-]: ASCII letters, digits, underscore and hyphen. */
  predicate IsIdChar(c: char) {
    ('A' <= c <= 'Z') || ('a' <= c <= 'z') || ('0' <= c <= '9') || c == '_' || c == '-'
  }

  /** The test /^[\w-]{11}$/: exactly eleven id characters. */
  predicate IsBareYouTubeId(s: string) {
    |s| == 11 && forall i :: 0 <= i < |s| ==> IsIdChar(s[i])
  }

  /** The test /^\d+$/: one or more ASCII digits. */
  predicate IsDigits(s: string) {
    |s| > 0 && forall i :: 0 <= i < |s| ==> '0' <= s[i] <= '9'
  }

  /**
   * What the two tests accept: an eleven-character id with `_` and `-`, and
   * a string of digits; a ten-character id, a URL, the empty string and a
   * digit string with a letter are rejected.
   */
  lemma BareIdTestExamples()
    ensures IsBareYouTubeId("dQw4w9WgX_-") && !IsBareYouTubeId("dQw4w9WgXc")
    ensures !IsBareYouTubeId("https://youtu.be/dQw4w9WgXcQ")
    ensures IsDigits("76979871") && !IsDigits("") && !IsDigits("7697a871")
  {
    assert !IsIdChar(':');
    assert "7697a871"[4] == 'a';
  }

  /**
   * `getYouTubeId(idOrUrl = '')`. The branch that parses `idOrUrl` as a URL
   * is the parameter `fromUrl`: what that branch returns for the string.
   */
  function GetYouTubeId(idOrUrl: Option<string>, fromUrl: string -> string): (id: string)
    ensures idOrUrl.GetOr("") == "" ==> id == ""
    ensures IsBareYouTubeId(idOrUrl.GetOr("")) ==> id == idOrUrl.value
    ensures idOrUrl.GetOr("") != "" && !IsBareYouTubeId(idOrUrl.GetOr("")) ==>
              id == fromUrl(idOrUrl.value)
  {
    var s := idOrUrl.GetOr("");
    if s == "" then ""
    else if IsBareYouTubeId(s) then s
    else fromUrl(s)
  }

  /**
   * `getVimeoId(idOrUrl = '')`. The branch that parses `idOrUrl` as a URL
   * is the parameter `fromUrl`: what that branch returns for the string.
   */
  function GetVimeoId(idOrUrl: Option<string>, fromUrl: string -> string): (id: string)
    ensures idOrUrl.GetOr("") == "" ==> id == ""
    ensures IsDigits(idOrUrl.GetOr("")) ==> id == idOrUrl.value
    ensures idOrUrl.GetOr("") != "" && !IsDigits(idOrUrl.GetOr("")) ==> id == fromUrl(idOrUrl.value)
  {
    var s := idOrUrl.GetOr("");
    if s == "" then ""
    else if IsDigits(s) then s
    else fromUrl(s)
  }

  /**
   * A bare id is its own result whatever the URL parser would say, so
   * extracting again from an extracted bare id changes nothing.
   */
  lemma BareIdsAreFixedPoints(s: string, f: string -> string, g: string -> string)
    ensures IsBareYouTubeId(s) ==> GetYouTubeId(Some(s), f) == s
    ensures IsBareYouTubeId(s) ==> GetYouTubeId(Some(GetYouTubeId(Some(s), f)), g) == s
    ensures IsDigits(s) ==> GetVimeoId(Some(s), f) == s
    ensures IsDigits(s) ==> GetVimeoId(Some(GetVimeoId(Some(s), f)), g) == s
  {
  }

  datatype Playback = Playback(loop: bool, muted: bool, controls: bool)

  /** `loop ?? true`, `muted ?? true`, `controls ?? false`: only an explicit value overrides. */
  function PlaybackOf(v: Video): (p: Playback)
    ensures p.loop <==> v.loop != Some(false)
    ensures p.muted <==> v.muted != Some(false)
    ensures p.controls <==> v.controls == Some(true)
  {
    Playback(v.loop.GetOr(true), v.muted.GetOr(true), v.controls.GetOr(false))
  }

  const DefaultAccent := "#818cf8"

  /**
   * The `accent = '#818cf8'` default of VideoBlock and Gallery: None is a
   * missing (`undefined`) accent.
   */
  function AccentOf(accent: Option<string>): (c: string)
    ensures accent.Some? ==> c == accent.value
    ensures accent.None? ==> c == DefaultAccent
  {
    accent.GetOr(DefaultAccent)
  }

  /** What the video block renders inside its frame. */
  datatype Player = FilePlayer | YouTubeEmbed(id: string) | VimeoEmbed(id: string) | NoPlayer

  /**
   * The file player for type "file"; an embed for "youtube" or "vimeo" only
   * when an id was found; nothing otherwise.
   */
  function PlayerOf(v: Video, youTubeFromUrl: string -> string, vimeoFromUrl: string -> string): (p: Player)
    ensures p == FilePlayer <==> v.kind == "file"
    ensures p.YouTubeEmbed? <==> v.kind == "youtube" && GetYouTubeId(v.src, youTubeFromUrl) != ""
    ensures p.YouTubeEmbed? ==> p.id == GetYouTubeId(v.src, youTubeFromUrl)
    ensures p.VimeoEmbed? <==> v.kind == "vimeo" && GetVimeoId(v.src, vimeoFromUrl) != ""
    ensures p.VimeoEmbed? ==> p.id == GetVimeoId(v.src, vimeoFromUrl)
  {
    if v.kind == "file" then FilePlayer
    else if v.kind == "youtube" then
      var id := GetYouTubeId(v.src, youTubeFromUrl);
      if id != "" then YouTubeEmbed(id) else NoPlayer
    else if v.kind == "vimeo" then
      var id := GetVimeoId(v.src, vimeoFromUrl);
      if id != "" then VimeoEmbed(id) else NoPlayer
    else NoPlayer
  }
}
