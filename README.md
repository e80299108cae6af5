# Talk compiler model

This project models the talk compiler of `talks/talks.go` in Dafny. The compiler turns one
decoded talk file into a validated `Talk` that is ready for rendering. It copies the caller's
draft flag, renders the intro as Markdown and takes the slug from the file name. It then checks
the required fields in a fixed order (event, intro, location, title, publish date) and stops at
the first one that is missing. Last, it walks the slides in order. For each slide it renders the
caption, gives it a `%03d` number and points it at its image, the PNG before the JPG. A slide
with no image fails the whole compilation.

Layout:

- `wrappers.dfy`: `Option` (a nil-able pointer) and `Result` (Go's `(T, error)`).
- `text.dfy`: `strings.Replace(s, pat, "", -1)` as `RemoveAll`, and `path.Join` for clean
  components.
- `numbers.dfy`: `%d` and `%0Nd` for non-negative integers, with the numeric value of a digit
  string as their inverse.
- `talk_spec.dfy`: the records as values. `CompileResult` gives the outcome of one compilation.
  The slide step, the ordered validation and `PublishingInfo` are here too, with the lemmas
  that state what they promise.
- `talks.dfy`: the imperative compiler. `Talk` and `Slide` are classes. Decoding allocates them
  (`DecodeTalk`, `DecodeSlides` and the constructors). `Compile` fills in the talk's derived
  fields (`Talk.SetDerived`), checks the required ones (`Validate`) and mutates each slide in
  place (`Talk.ResolveSlides`). Its `ensures` says it produces exactly `CompileResult`. The slide
  loop is the method `ResolveAll`, and one iteration is `ResolveInPlace`.
- `talk_examples.dfy`: concrete cases, including the "launch.yaml" scenario.

Collaborators that this file cannot see become parameters:

- The Markdown renderer (`renderMarkdown`) becomes `render: string -> string`.
- The file system seen by `os.Stat` becomes `FileSystem(present, faulty)`. `faulty` holds the
  paths on which `os.Stat` fails with an error other than "does not exist".
- Reading and YAML decoding become a `Source`. It is either a read error, a decoding error, or
  the decoded fields. `TalkFields` holds only the fields that have a YAML key, so the draft flag,
  the rendered `Intro` and `Caption`, the slug, the numbers and the image paths can never come
  from the file.

Where the code and its description disagree, the model follows the code:

- The slug is the file name with every `.yaml` removed, wherever it occurs, not just the name
  without its extension. `foo.yml` stays `foo.yml`. `a.yaml.yaml` becomes `a`. `..yamlyaml`
  becomes `.yaml`, so applying the slug rule twice can change the result.
- Slide numbers have at least three digits, not exactly three. Slide 1000 is numbered `1000`.
- When `os.Stat` fails with an error other than "does not exist", `fileExists` panics instead of
  returning an error. The model reports this as the outcome `StatPanic(path)`.

## Model

| member | source | states |
|---|---|---|
| Text.RemoveAll | talks/talks.go:95 | deleting every `.yaml` never lengthens a name, and a name whose length is kept is unchanged |
| Text.RemoveAllWithoutOccurrence | talks/talks.go:95 | a name with no occurrence of the pattern is left as it is |
| Text.RemoveAllAfterClean | talks/talks.go:95 | the scan keeps a prefix with no occurrence whole, drops the pattern right after it and carries on in the rest |
| Numbers.DecimalValue | talks/talks.go:122 | `Decimal` (`%d`) is a non-empty digit string whose value is the number, with a leading zero only for 0 |
| Numbers.PaddedDecimalValue | talks/talks.go:122 | `PaddedDecimal` (`%0Nd`) is a digit string of length max(N, digit count) whose value is the number |
| Numbers.DecimalLength | talks/talks.go:122 | the numeral has at most three digits exactly when the number is below 1000 |
| Numbers.PaddedDecimalInjective | talks/talks.go:122 | distinct numbers never get the same padded numeral |
| TalkSpec.FirstMissing | talks/talks.go:97-115 | the reported field is missing and every field checked before it is present; none is reported only when all are present |
| TalkSpec.ReportedFieldIsUnique | talks/talks.go:97-115 | any missing field preceded only by present fields is the one reported |
| TalkSpec.CandidatesDistinct | talks/talks.go:122-131 | slides at different positions never share an image file name (`CandidateName`, built by `ImageName` from the `%03d` number), a searched path (`CandidatePath`, under `SlideDir`) or a URL (`AssetPath`), so each slide's image is its own file |
| TalkSpec.PngJpgDistinct | talks/talks.go:125-131 | a slide's PNG and JPG candidates differ in file name, searched path and URL |
| TalkSpec.ResolveSlideMeaning | talks/talks.go:120-135 | `ResolveSlide`: a slide resolves exactly when it has an image; it then has its rendered caption, the number of position i+1 and the URL of an existing file, PNG preferred |
| TalkSpec.ResolveFromSucceeds | talks/talks.go:120-136 | the slide loop `ResolveFrom` succeeds exactly when every slide resolves |
| TalkSpec.ResolveFromValue | talks/talks.go:120-136 | on success the loop yields every slide resolved, with the same count and order |
| TalkSpec.ResolveFromAll | talks/talks.go:120-136 | when every slide from a position on resolves to the matching entry of a list, the loop from there yields the rest of that list |
| TalkSpec.ResolveFromFirstFailure | talks/talks.go:120-136 | the loop reports the error of the first slide that fails, whatever follows it |
| TalkSpec.CompileResult | talks/talks.go:79-139 | a compiled talk comes from a decoded file; its draft flag is the argument, its slug comes from the name, its event, intro, location and title are non-empty and it has a publish date |
| TalkSpec.CompileSucceedsIff | talks/talks.go:82-138 | compilation succeeds exactly when the file was read and decoded, every required field is present (the intro after rendering) and every slide has an image |
| TalkSpec.CompiledFields | talks/talks.go:93-115 | after `Prepare`, a compiled talk keeps the decoded fields and the rendered intro, and has as many slides as the file |
| TalkSpec.CompiledSlide | talks/talks.go:120-131 | slide k keeps its caption source, has its rendered caption, is numbered k+1 and points at an existing image, PNG preferred |
| TalkSpec.CompiledNumbers | talks/talks.go:122 | slide k's number denotes k+1, so the numbers are distinct and increase with position |
| TalkSpec.PngPreferred | talks/talks.go:124-129 | if the PNG exists (`FileExists` on `CandidatePath`, i.e. `path.Join` of `SlideDir` and the `ImageName`), the slide's URL is `AssetPath`, `/assets/talks/slug/slug.NNN.png`, whether or not the JPG exists |
| TalkSpec.JpgFallback | talks/talks.go:130-131 | if the PNG is absent and the JPG exists (`FileExists` on each `CandidatePath`), the slide's URL is `AssetPath`, `/assets/talks/slug/slug.NNN.jpg` |
| TalkSpec.ValidationFailsFast | talks/talks.go:97-115 | the first missing field in check order is the one reported, with the file path; the result does not depend on the file system, so no slide is resolved |
| TalkSpec.MissingImageFails | talks/talks.go:132-135 | a slide whose PNG and JPG `FileExists` both report absent (`ResolveSlide`'s last error case) fails the whole compilation; when every earlier slide resolved, the error names both `ImageName`s and the `SlideDir` searched |
| TalkSpec.PngStatPanics | talks/talks.go:128 | `FileExists` gives the panic outcome of talks.go:150 for a failing `os.Stat`, and `ResolveSlide` passes it on: a failing `os.Stat` on a slide's PNG fails the whole compilation; when every earlier slide resolved, the outcome is the panic on that PNG path |
| TalkSpec.JpgStatPanics | talks/talks.go:130 | `ResolveSlide`'s second panic case: with the PNG absent (talks.go:147-148), a failing `os.Stat` on the JPG fails the whole compilation; when every earlier slide resolved, the outcome is the panic on that JPG path |
| TalkSpec.SlugRemovesEveryOccurrence | talks/talks.go:95 | `Slug`: every `.yaml` is removed, not only a trailing one |
| TalkSpec.SlugOfYamlFile | talks/talks.go:95 | the slug of `s.yaml` is `s` when `s` holds no `.yaml` |
| TalkSpec.SlugOfOtherName | talks/talks.go:95 | a name holding no `.yaml` is its own slug |
| TalkSpec.SlideNumberWidth | talks/talks.go:122 | `SlideNumber` (`%03d`) gives three digits below 1000 and the plain numeral (four or more digits) from 1000 on; the number can always be read back |
| TalkSpec.PublishingInfo | talks/talks.go:70-76 | the fragment opens with the title section and ends with the fixed Twitter block |
| TalkSpec.PublishingInfoRoundTrip | talks/talks.go:70-76 | title, formatted date, location and event can be read back from the fragment in that order, then the fixed block |
| Talks.Slide.constructor | talks/talks.go:17-31 | a decoded slide has only its caption source set |
| Talks.Talk.constructor | talks/talks.go:35-66 | a decoded talk has its YAML fields set and its derived fields at zero values |
| Talks.DecodeSlides | talks/talks.go:55 | decoding gives one fresh, distinct, blank slide per caption, in order |
| Talks.DecodeTalk | talks/talks.go:87-91 | decoding allocates a fresh talk with its YAML fields set, derived fields at zero values, and one fresh, distinct, blank slide per caption |
| Talks.Talk.SetDerived | talks/talks.go:93-95 | the draft flag is the argument, the intro is the rendered intro source, the slug comes from the file name; nothing else changes, the slides included |
| Talks.Validate | talks/talks.go:97-115 | the checks report the first missing field in check order, with the file path, and nothing when all fields are present |
| Talks.ResolveInPlace | talks/talks.go:121-135 | one iteration mutates the slide into the slide step's result, or reports that step's error |
| Talks.ResolveAll | talks/talks.go:120-136 | the in-place loop leaves the slides equal to the loop's result, or stops with the first slide's error |
| Talks.Talk.ResolveSlides | talks/talks.go:117-136 | the loop over the talk's own slides with its slug leaves the talk's fields alone and its slides equal to the loop's result, or stops with the first error |
| Talks.Compile | talks/talks.go:79-139 | the imperative compiler returns exactly `CompileResult`: the same error, or a fresh talk with fresh slides whose value is the compiled talk |
| TalkExamples.SlugOfYml | talks/talks.go:95 | `foo.yml` is its own slug |
| TalkExamples.SlugNotIdempotent | talks/talks.go:95 | the slug of `..yamlyaml` is `.yaml`, whose own slug is empty |
| TalkExamples.NumberExamples | talks/talks.go:122 | slides 1, 42 and 1000 are numbered `001`, `042` and `1000` |
| TalkExamples.LaunchScenario | talks/talks.go:79-139 | `launch.yaml` with all fields and only `launch.001.jpg` on disk compiles to slug `launch` and slide `001` at `/assets/talks/launch/launch.001.jpg` |

## Left out

- Reading the file (`ioutil.ReadFile`) and YAML decoding (`yaml.Unmarshal`) are foreign I/O and
  a library parser. Their outcome is the input `Source`, and their errors pass through unchanged.
- The Markdown renderer and its options are a foreign library. They are the parameter `render`.
- `os.Stat` is a set of paths that exist and a set of paths that fail. Real file-system
  behaviour is not modelled.
- `path.Join` is modelled as joining with `/`. Its cleaning rules (empty parts, `..`, doubled
  slashes) are not modelled.
- Date formatting and `sorg.TwitterInfo` in `PublishingInfo` are foreign values. They are the
  parameters `formatDate` and `twitterInfo`. `PublishingInfo` requires a publish date because
  the Go code dereferences the pointer.
- `fmt.Errorf` message text is not modelled. An error records only its kind and the field,
  file names, path or directory it names.
- A `null` entry in the YAML `slides` list would make the loop dereference a nil pointer. The
  model assumes decoding gives a slide object for every entry.
- Error values from the read and decode steps are reduced to a reason string.
