/** The "new post" admin page: the slug it derives from the title, its copy
    of the post schema, its form defaults and the body it sends. */
module NewPostPage {
  import opened Common
  import opened Validation
  import opened AdminBlogRoute

  // ------------------------------------------------------------ slug

  /** Characters `/[^a-z0-9\s-]/g` leaves in place. */
  predicate KeptInSlug(c: char) {
    IsAsciiLower(c) || IsAsciiDigit(c) || IsJsSpace(c) || c == '-'
  }

  predicate IsHyphen(c: char) { c == '-' }

  /** `s.replace(/x+/g, sep)` where x is the character class inRun: every
      maximal run of such characters becomes the single character sep. */
  function ReplaceRuns(s: string, inRun: char -> bool, sep: char): (r: string)
    ensures forall i :: 0 <= i < |r| ==> r[i] == sep || (!inRun(r[i]) && r[i] in s)
    ensures s == [] <==> r == []
    ensures r != [] && inRun(s[0]) ==> r[0] == sep
    ensures r != [] && !inRun(s[0]) ==> r[0] == s[0]
    decreases |s|
  {
    if s == [] then []
    else if inRun(s[0]) then
      var rest := DropWhile(s, inRun);
      assert |rest| < |s|;
      var tail := ReplaceRuns(rest, inRun, sep);
      assert forall x :: x in rest ==> x in s;
      [sep] + tail
    else
      var tail := ReplaceRuns(s[1..], inRun, sep);
      assert forall x :: x in s[1..] ==> x in s;
      [s[0]] + tail
  }

  /** No two neighbours both satisfy p. */
  predicate NoAdjacent(s: string, p: char -> bool) {
    forall i :: 0 <= i < |s| - 1 ==> !(p(s[i]) && p(s[i + 1]))
  }

  /** When the replacement itself belongs to the class, the result has no
      two neighbouring characters of the class. */
  lemma {:induction false} ReplaceRunsSeparates(s: string, inRun: char -> bool, sep: char)
    requires inRun(sep)
    ensures NoAdjacent(ReplaceRuns(s, inRun, sep), inRun)
    decreases |s|
  {
    if s != [] {
      if inRun(s[0]) {
        var rest := DropWhile(s, inRun);
        ReplaceRunsSeparates(rest, inRun, sep);
      } else {
        ReplaceRunsSeparates(s[1..], inRun, sep);
      }
    }
  }

  /** A string whose class characters are all `sep` and never neighbours is
      left as it is. */
  lemma {:induction false} ReplaceRunsFixes(s: string, inRun: char -> bool, sep: char)
    requires forall i :: 0 <= i < |s| && inRun(s[i]) ==> s[i] == sep
    requires NoAdjacent(s, inRun)
    ensures ReplaceRuns(s, inRun, sep) == s
    decreases |s|
  {
    if s != [] {
      if inRun(s[0]) {
        assert |s| > 1 ==> !inRun(s[1]);
        assert DropWhile(s, inRun) == s[1..];
      }
      ReplaceRunsFixes(s[1..], inRun, sep);
    }
  }

  /** Replacing runs keeps, in order, every character that keep selects,
      when keep selects neither the run characters nor the replacement. */
  lemma {:induction false} ReplaceRunsKeepsOthers(s: string, inRun: char -> bool, sep: char, keep: char -> bool)
    requires !keep(sep)
    requires forall i :: 0 <= i < |s| && inRun(s[i]) ==> !keep(s[i])
    ensures Filter(ReplaceRuns(s, inRun, sep), keep) == Filter(s, keep)
    decreases |s|
  {
    if s != [] {
      if inRun(s[0]) {
        var rest := DropWhile(s, inRun);
        var k := |s| - |rest|;
        var tail := ReplaceRuns(rest, inRun, sep);
        assert ReplaceRuns(s, inRun, sep) == [sep] + tail;
        DropWhileSplits(s, inRun);
        FilterAppend(s[..k], rest, keep);
        forall i | 0 <= i < k ensures !keep(s[..k][i]) {
          assert s[..k][i] == s[i] && inRun(s[i]);
        }
        FilterNone(s[..k], keep);
        ReplaceRunsKeepsOthers(rest, inRun, sep, keep);
        FilterCons(sep, tail, keep);
      } else {
        assert s == [s[0]] + s[1..];
        ReplaceRunsKeepsOthers(s[1..], inRun, sep, keep);
        FilterCons(s[0], ReplaceRuns(s[1..], inRun, sep), keep);
        FilterCons(s[0], s[1..], keep);
      }
    }
  }

  /** DropWhile removes a prefix of class characters and keeps the rest. */
  lemma DropWhileSplits(s: string, p: char -> bool)
    ensures var rest := DropWhile(s, p); s == s[..|s| - |rest|] + rest
  {
    var rest := DropWhile(s, p);
    assert s == s[..|s| - |rest|] + s[|s| - |rest|..];
  }

  /** s without its longest suffix of characters satisfying p. */
  function DropWhileEnd(s: string, p: char -> bool): (r: string)
    ensures |r| <= |s| && r == s[..|r|]
    ensures r != [] ==> !p(r[|r| - 1])
  {
    if s != [] && p(s[|s| - 1]) then DropWhileEnd(s[..|s| - 1], p) else s
  }

  /** `s.trim()` */
  function Trim(s: string): (r: string)
    ensures r != [] ==> !IsJsSpace(r[0]) && !IsJsSpace(r[|r| - 1])
  {
    DropWhileEnd(DropWhile(s, IsJsSpace), IsJsSpace)
  }

  lemma TrimKeepsSpaceless(s: string)
    requires forall i :: 0 <= i < |s| ==> !IsJsSpace(s[i])
    ensures Trim(s) == s
  {
    assert DropWhile(s, IsJsSpace) == s;
    assert s != [] ==> !IsJsSpace(s[|s| - 1]);
  }

  const SlugMaxLength := 50

  /** `substring(0, 50)`; the string is ASCII by then, so code units and
      characters coincide. */
  function Truncate(s: string): (r: string)
    ensures |r| == Min(|s|, SlugMaxLength) && r == s[..|r|]
  {
    s[..Min(|s|, SlugMaxLength)]
  }

  /** `.replace(/\s+/g, '-').replace(/-+/g, '-')`: white space runs become
      one hyphen, then hyphen runs become one hyphen. */
  function Collapse(kept: string): (r: string)
    ensures forall i :: 0 <= i < |r| ==> r[i] == '-' || (!IsJsSpace(r[i]) && r[i] in kept)
    ensures NoAdjacent(r, IsHyphen)
  {
    var hyphenated := ReplaceRuns(kept, IsJsSpace, '-');
    ReplaceRunsSeparates(hyphenated, IsHyphen, '-');
    ReplaceRuns(hyphenated, IsHyphen, '-')
  }

  /** The title-to-slug chain, step by step. The result is shaped like a
      slug and, when not empty, passes the schema's character pattern (it
      may still be shorter than the schema's 3 characters). */
  function SlugFromTitle(title: string): (r: string)
    ensures SlugShaped(r)
    ensures r != [] ==> MatchesSlugPattern(r)
  {
    var kept := Filter(Lower(title), KeptInSlug);
    var collapsed := Collapse(kept);
    TrimKeepsSpaceless(collapsed);
    TruncateKeepsShape(collapsed);
    Truncate(Trim(collapsed))
  }

  /** Only lower-case letters, digits and hyphens; no two hyphens in a row;
      at most 50 characters. */
  predicate SlugShaped(s: string) {
    && (forall i :: 0 <= i < |s| ==> IsSlugChar(s[i]))
    && NoAdjacent(s, IsHyphen)
    && |s| <= SlugMaxLength
  }

  /** Trimming never removes anything from the collapsed title: the white
      space is gone by then, so a title that starts or ends with a space or
      a hyphen yields a slug that starts or ends with '-'. */
  lemma TrimRemovesNothing(title: string)
    ensures var collapsed := Collapse(Filter(Lower(title), KeptInSlug));
      Trim(collapsed) == collapsed
  {
    TrimKeepsSpaceless(Collapse(Filter(Lower(title), KeptInSlug)));
  }

  /** The characters of a slug that carry text. */
  predicate IsLowerAlnum(c: char) { IsAsciiLower(c) || IsAsciiDigit(c) }

  predicate NotHyphen(c: char) { c != '-' }

  /** Collapsing white space and hyphens keeps every letter and digit, in order. */
  lemma CollapseKeepsAlnum(kept: string)
    ensures Filter(Collapse(kept), IsLowerAlnum) == Filter(kept, IsLowerAlnum)
  {
    var hyphenated := ReplaceRuns(kept, IsJsSpace, '-');
    ReplaceRunsKeepsOthers(kept, IsJsSpace, '-', IsLowerAlnum);
    ReplaceRunsKeepsOthers(hyphenated, IsHyphen, '-', IsLowerAlnum);
  }

  /** What the slug says: with its hyphens removed it is the lower-cased
      title's ASCII letters and digits, in order, cut short by the
      50-character limit. */
  lemma SlugKeepsTitleText(title: string)
    ensures var slug := SlugFromTitle(title); var text := Filter(Lower(title), IsLowerAlnum);
      && Filter(slug, NotHyphen) == Filter(slug, IsLowerAlnum)
      && |Filter(slug, NotHyphen)| <= |text|
      && text[..|Filter(slug, NotHyphen)|] == Filter(slug, NotHyphen)
  {
    var lowered := Lower(title);
    var kept := Filter(lowered, KeptInSlug);
    var collapsed := Collapse(kept);
    var slug := SlugFromTitle(title);
    TrimRemovesNothing(title);
    assert slug == collapsed[..|slug|];
    FilterNested(lowered, IsLowerAlnum, KeptInSlug);
    CollapseKeepsAlnum(kept);
    FilterOfPrefix(collapsed, |slug|, IsLowerAlnum);
    FilterCongruent(slug, NotHyphen, IsLowerAlnum);
  }

  /** Cutting a string short keeps its characters' kinds and their
      neighbourhoods. */
  lemma TruncateKeepsShape(s: string)
    requires forall i :: 0 <= i < |s| ==> IsSlugChar(s[i])
    requires NoAdjacent(s, IsHyphen)
    ensures SlugShaped(Truncate(s))
  {
    var t := Truncate(s);
    assert forall i :: 0 <= i < |t| ==> t[i] == s[i];
  }

  /** Each step leaves a slug-shaped string alone. */
  lemma SlugShapedIsFixed(s: string)
    requires SlugShaped(s)
    ensures SlugFromTitle(s) == s
  {
    KeptIsFixed(s);
    CollapseIsFixed(s);
    TrimIsFixed(s);
    assert Truncate(s) == s;
  }

  /** A slug has no white space to trim. */
  lemma TrimIsFixed(s: string)
    requires SlugShaped(s)
    ensures Trim(s) == s
  {
    assert forall i :: 0 <= i < |s| ==> !IsJsSpace(s[i]);
    TrimKeepsSpaceless(s);
  }

  /** Lower-casing and filtering keep every character of a slug. */
  lemma KeptIsFixed(s: string)
    requires SlugShaped(s)
    ensures Filter(Lower(s), KeptInSlug) == s
  {
    assert forall i :: 0 <= i < |s| ==> KeptInSlug(s[i]);
    LowerFixes(s);
    FilterAll(s, KeptInSlug);
  }

  /** A slug has no white space and no hyphen runs to collapse. */
  lemma CollapseIsFixed(s: string)
    requires SlugShaped(s)
    ensures Collapse(s) == s
  {
    assert forall i :: 0 <= i < |s| ==> !IsJsSpace(s[i]);
    ReplaceRunsFixes(s, IsJsSpace, '-');
    ReplaceRunsFixes(s, IsHyphen, '-');
  }

  /** Deriving a slug from a derived slug changes nothing. */
  lemma SlugIdempotent(title: string)
    ensures SlugFromTitle(SlugFromTitle(title)) == SlugFromTitle(title)
  {
    SlugShapedIsFixed(SlugFromTitle(title));
  }

  /** The effect on a title change: an empty title leaves the slug field
      as it is, any other title replaces it with the derived slug. */
  function OnTitleChange(title: string, slug: string): (r: string)
    ensures title == "" ==> r == slug
    ensures title != "" ==> SlugShaped(r) && r == SlugFromTitle(title)
  {
    if title != "" then
      SlugFromTitle(title)
    else slug
  }

  // ------------------------------------------------------------ form

  /** The form's values at submit time. Text inputs always hold a string;
      `readTime` is read with valueAsNumber, None standing for NaN. */
  datatype PostForm = PostForm(
    title: string,
    slug: string,
    excerpt: string,
    content: string,
    image: string,
    category: string,
    tags: string,
    metaTitle: string,
    metaDescription: string,
    readTime: Option<int>,
    published: bool,
    featured: bool)

  /** The page's own schema: like the server's, except that the image may
      also be the empty string and `readTime`, `published` and `featured`
      are required. */
  predicate ClientAccepts(f: PostForm, fmt: Formats) {
    && Utf16Length(f.title) >= 5
    && Utf16Length(f.slug) >= 3 && MatchesSlugPattern(f.slug)
    && Utf16Length(f.excerpt) >= 20
    && Utf16Length(f.content) >= 100
    && (f.image == "" || fmt.isUrl(f.image))
    && Utf16Length(f.category) >= 2
    && f.readTime.Some? && 1 <= f.readTime.value <= 60
  }

  datatype FormDefaults = FormDefaults(published: bool, featured: bool, readTime: int)

  /** `defaultValues` */
  function Defaults(): (d: FormDefaults)
    ensures !d.published && !d.featured && d.readTime == 5
  {
    FormDefaults(false, false, 5)
  }

  /** `{...data, image: data.image || undefined}`: an empty image is left
      out of the body; every other value is sent as it is. */
  function SubmitBody(f: PostForm): (b: PostInput)
    requires f.readTime.Some?
    ensures b.image.Missing? <==> f.image == ""
    ensures b.image.Given? ==> b.image.value == f.image
    ensures b.slug == Given(f.slug) && b.readTime == Given(f.readTime.value)
    ensures b.published == Given(f.published) && b.featured == Given(f.featured)
  {
    PostInput(
      Given(f.title), Given(f.slug), Given(f.excerpt), Given(f.content),
      if f.image == "" then Missing else Given(f.image),
      Given(f.published), Given(f.featured), Given(f.category),
      Given(f.tags), Given(f.metaTitle), Given(f.metaDescription),
      Given(f.readTime.value))
  }

  /** A form the page accepts yields a body the server accepts. */
  lemma ClientAcceptedIsServerAccepted(f: PostForm, fmt: Formats)
    requires ClientAccepts(f, fmt)
    ensures AcceptablePost(SubmitBody(f), fmt)
    ensures PostIssues(SubmitBody(f), fmt) == []
  {
    PostIssuesAgree(SubmitBody(f), fmt);
  }
}
