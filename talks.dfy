/** The talk compiler as the Go code runs it: `Talk` and `Slide` objects that
    decoding allocates and `Compile` fills in place, field by field and slide
    by slide. `Compile` is proved to produce exactly `TalkSpec.CompileResult`. */
module Talks {
  import opened Wrappers
  import opened Text
  import opened TalkSpec

  /** A slide of a talk; the Go code reaches it through a `*Slide`. */
  class Slide {
    var caption: string
    var captionRaw: string
    var imagePath: string
    var number: string

    /** A slide as decoding leaves it: only the caption source is set. */
    constructor (captionRaw: string)
      ensures Data() == Blank(captionRaw)
    {
      this.caption := "";
      this.captionRaw := captionRaw;
      this.imagePath := "";
      this.number := "";
    }

    function Data(): SlideData
      reads this
    {
      SlideData(caption, captionRaw, imagePath, number)
    }
  }

  /** The current values of a sequence of slides. */
  function SlidesData(ss: seq<Slide>): (r: seq<SlideData>)
    reads ss
    ensures |r| == |ss| && forall k :: 0 <= k < |ss| ==> r[k] == ss[k].Data()
  {
    seq(|ss|, k requires 0 <= k < |ss| reads ss => ss[k].Data())
  }

  class Talk {
    var draft: bool
    var event: string
    var intro: string
    var introRaw: string
    var location: string
    var publishedAt: Option<Timestamp>
    var slides: seq<Slide>
    var slug: string
    var subtitle: string
    var title: string

    /** A talk as decoding leaves it: the YAML fields set from `f`, the
        derived ones at their zero values. */
    constructor (f: TalkFields, slides: seq<Slide>)
      ensures this.slides == slides
      ensures Fields() == TalkData(false, f.event, "", f.introRaw, f.location, f.publishedAt, [], "", f.subtitle, f.title)
    {
      this.draft := false;
      this.event := f.event;
      this.intro := "";
      this.introRaw := f.introRaw;
      this.location := f.location;
      this.publishedAt := f.publishedAt;
      this.slides := slides;
      this.slug := "";
      this.subtitle := f.subtitle;
      this.title := f.title;
    }

    /** No two entries of `slides` are the same object. */
    ghost predicate Valid()
      reads this
    {
      forall a, b :: 0 <= a < b < |slides| ==> slides[a] != slides[b]
    }

    /** The talk's own fields, with its slides left out. */
    function Fields(): TalkData
      reads this
    {
      TalkData(draft, event, intro, introRaw, location, publishedAt, [], slug, subtitle, title)
    }

    /** The talk's current value, slides included. */
    function Data(): TalkData
      reads this, slides
    {
      Fields().(slides := SlidesData(slides))
    }

    /** The three assignments that follow decoding: the draft flag, the
        rendered intro and the slug derived from the file name. */
    method SetDerived(name: string, draft: bool, render: string -> string)
      modifies this
      ensures Fields() == old(Fields()).(draft := draft, intro := render(introRaw), slug := Slug(name))
      ensures slides == old(slides) && SlidesData(slides) == old(SlidesData(slides))
    {
      this.draft := draft;
      this.intro := render(introRaw);
      this.slug := Slug(name);
    }

    /** The slide loop over this talk's slides, with the talk's slug. */
    method ResolveSlides(contentDir: string, render: string -> string, fs: FileSystem) returns (err: Option<CompileError>)
      requires Valid()
      modifies slides
      ensures unchanged(this)
      ensures var want := ResolveFrom(SlideStep(contentDir, slug, render, fs), old(SlidesData(slides)), 0);
        && (err.None? <==> want.Success?)
        && (err.Some? ==> want.error == err.value)
        && (err.None? ==> SlidesData(slides) == want.value)
    {
      assert IsSlideStep(SlideStep(contentDir, slug, render, fs), contentDir, slug, render, fs);
      err := ResolveAll(slides, contentDir, slug, render, fs, SlideStep(contentDir, slug, render, fs));
    }
  }

  /** Decoding's allocation of the slides: one fresh, blank slide per caption. */
  method DecodeSlides(captions: seq<string>) returns (ss: seq<Slide>)
    ensures |ss| == |captions|
    ensures forall k :: 0 <= k < |ss| ==> fresh(ss[k]) && ss[k].Data() == Blank(captions[k])
    ensures forall a, b :: 0 <= a < b < |ss| ==> ss[a] != ss[b]
  {
    ss := [];
    var i := 0;
    while i < |captions|
      invariant i <= |captions| && |ss| == i
      invariant forall k :: 0 <= k < i ==> fresh(ss[k]) && ss[k].Data() == Blank(captions[k])
      invariant forall a, b :: 0 <= a < b < i ==> ss[a] != ss[b]
    {
      var s := new Slide(captions[i]);
      ss := ss + [s];
      i := i + 1;
    }
  }

  /** One iteration of the slide loop on `slide`, the slide at 0-based
      index `i` of the talk with slug `slug`: renders the caption, sets the
      number, then points the slide at its PNG, else its JPG, else fails.
      `step` is `ResolveSlide` for this talk (`IsSlideStep`); the contract
      is stated through it so that the proofs of this method and of the
      loop that calls it never unfold the definition of `ResolveSlide`,
      which would make them too costly. */
  method ResolveInPlace(slide: Slide, i: nat, contentDir: string, slug: string,
                        render: string -> string, fs: FileSystem, ghost step: Step) returns (err: Option<CompileError>)
    requires IsSlideStep(step, contentDir, slug, render, fs)
    modifies slide
    ensures var want := step(i, old(slide.Data()));
      && (err.None? <==> want.Success?)
      && (err.Some? ==> want.error == err.value)
      && (err.None? ==> slide.Data() == want.value)
  {
    assert step(i, slide.Data()) == ResolveSlide(contentDir, slug, i, slide.Data(), render, fs);
    slide.caption := render(slide.captionRaw);
    slide.number := SlideNumber(i + 1);

    var pngName := ImageName(slug, slide.number, "png");
    var jpgName := ImageName(slug, slide.number, "jpg");
    var slideDir := SlideDir(contentDir, slug);
    var png := FileExists(fs, Join(slideDir, pngName));
    if png == Fault {
      return Some(StatPanic(Join(slideDir, pngName)));
    } else if png == Exists {
      slide.imagePath := AssetPath(slug, pngName);
    } else {
      var jpg := FileExists(fs, Join(slideDir, jpgName));
      if jpg == Fault {
        return Some(StatPanic(Join(slideDir, jpgName)));
      } else if jpg == Exists {
        slide.imagePath := AssetPath(slug, jpgName);
      } else {
        return Some(MissingImage(pngName, jpgName, slideDir));
      }
    }
    return None;
  }

  /** The slide loop: resolves the slides in order, in place, and stops at
      the first one that fails. As in `ResolveInPlace`, `step` stands for
      `ResolveSlide`; `Talk.ResolveSlides` states the same contract with
      `SlideStep` itself. */
  method ResolveAll(ss: seq<Slide>, contentDir: string, slug: string,
                    render: string -> string, fs: FileSystem, ghost step: Step) returns (err: Option<CompileError>)
    requires forall a, b :: 0 <= a < b < |ss| ==> ss[a] != ss[b]
    requires IsSlideStep(step, contentDir, slug, render, fs)
    modifies ss
    ensures var want := ResolveFrom(step, old(SlidesData(ss)), 0);
      && (err.None? <==> want.Success?)
      && (err.Some? ==> want.error == err.value)
      && (err.None? ==> SlidesData(ss) == want.value)
  {
    ghost var before := SlidesData(ss);
    var i := 0;
    while i < |ss|
      invariant 0 <= i <= |ss|
      invariant forall k :: 0 <= k < i ==> step(k, before[k]) == Success(ss[k].Data())
      invariant forall k :: i <= k < |ss| ==> ss[k].Data() == before[k]
    {
      err := ResolveInPlace(ss[i], i, contentDir, slug, render, fs, step);
      if err.Some? {
        ResolveFromFirstFailure(step, before, 0, i);
        return;
      }
      i := i + 1;
    }
    ResolveFromAll(step, before, SlidesData(ss), 0);
    assert SlidesData(ss)[0..] == SlidesData(ss);
    return None;
  }

  /** Decoding's allocation of the talk: a fresh `Talk` holding the YAML
      fields of `f` and one fresh, blank slide per caption. */
  method DecodeTalk(f: TalkFields) returns (talk: Talk)
    ensures fresh(talk) && talk.Valid()
    ensures forall k :: 0 <= k < |talk.slides| ==> fresh(talk.slides[k])
    ensures talk.Fields() == TalkData(false, f.event, "", f.introRaw, f.location, f.publishedAt, [], "", f.subtitle, f.title)
    ensures SlidesData(talk.slides) == Blanks(f.captions)
  {
    var ss := DecodeSlides(f.captions);
    talk := new Talk(f, ss);
  }

  /** The required-field checks, in order: the error for the first field
      that is empty (or, for the publication date, absent), if any. */
  method Validate(talk: Talk, inPath: string) returns (err: Option<CompileError>)
    ensures match FirstMissing(talk.Fields())
      case None => err.None?
      case Some(f) => err == Some(MissingField(f, inPath))
  {
    if talk.event == "" {
      return Some(MissingField(Event, inPath));
    }
    if talk.intro == "" {
      return Some(MissingField(Intro, inPath));
    }
    if talk.location == "" {
      return Some(MissingField(Location, inPath));
    }
    if talk.title == "" {
      return Some(MissingField(Title, inPath));
    }
    if talk.publishedAt.None? {
      return Some(MissingField(PublishedAt, inPath));
    }
    return None;
  }

  /** Compiles the talk file `name` in `dir`, whose read and decoding gave
      `src`: copies the draft flag, renders the intro, derives the slug,
      checks the required fields in order, then resolves every slide in
      order, failing on the first one without an image. */
  method Compile(contentDir: string, dir: string, name: string, draft: bool, src: Source,
                 render: string -> string, fs: FileSystem) returns (r: Result<Talk, CompileError>)
    ensures r.Failure? ==> CompileResult(contentDir, dir, name, draft, src, render, fs) == Failure(r.error)
    ensures r.Success? ==> fresh(r.value) && r.value.Valid()
    ensures r.Success? ==> forall k :: 0 <= k < |r.value.slides| ==> fresh(r.value.slides[k])
    ensures r.Success? ==> CompileResult(contentDir, dir, name, draft, src, render, fs) == Success(r.value.Data())
  {
    var inPath := Join(dir, name);
    if src.Unreadable? {
      return Failure(ReadFailed(src.reason));
    }
    if src.Malformed? {
      return Failure(DecodeFailed(src.reason));
    }
    var f := src.fields;
    var talk := DecodeTalk(f);
    talk.SetDerived(name, draft, render);
    ghost var prepared := Prepare(f, name, draft, render);
    assert talk.Fields() == prepared.(slides := []);

    var missing := Validate(talk, inPath);
    if missing.Some? {
      return Failure(missing.value);
    }
    assert FirstMissing(prepared) == None;

    var err := talk.ResolveSlides(contentDir, render, fs);
    if err.Some? {
      return Failure(err.value);
    }
    return Success(talk);
  }
}
