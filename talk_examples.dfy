/** Concrete consequences of the model on small inputs. */
module TalkExamples {
  import opened Wrappers
  import opened Text
  import opened TalkSpec

  /** A name without ".yaml" is its own slug. */
  lemma SlugOfYml()
    ensures Slug("foo.yml") == "foo.yml"
  {
  }

  lemma LaunchIsClean()
    ensures !Contains("launch", YamlExtension)
  {
    forall i: nat | i <= 6
      ensures !OccursAt("launch", YamlExtension, i)
    {
      if i + 5 <= 6 {
        assert "launch"[i..i + 5][0] == "launch"[i] != '.';
      }
    }
  }

  lemma SlugOfLaunch()
    ensures Slug("launch.yaml") == "launch"
  {
    LaunchIsClean();
    SlugOfYamlFile("launch");
    assert "launch" + YamlExtension == "launch.yaml";
  }

  /** Every ".yaml" goes, so the slug of "..yamlyaml" still contains ".yaml"
      and slugging is not idempotent. */
  lemma SlugNotIdempotent()
    ensures Slug("..yamlyaml") == ".yaml"
    ensures Slug(".yaml") == ""
  {
    assert "..yamlyaml" == "." + YamlExtension + "yaml";
    SlugRemovesEveryOccurrence(".", "yaml");
  }

  /** Slide numbers are padded to three digits and grow past them. */
  lemma NumberExamples()
    ensures SlideNumber(1) == "001"
    ensures SlideNumber(42) == "042"
    ensures SlideNumber(1000) == "1000"
  {
  }

  /** The candidates of the first slide of "launch" under "content". */
  lemma LaunchCandidate(ext: string)
    ensures CandidateName("launch", 0, ext) == "launch.001." + ext
    ensures CandidatePath("content", "launch", 0, ext) == "content/images/talks/launch/launch.001." + ext
  {
    assert SlideNumber(1) == "001";
  }

  /** With only the JPG on disk, the first slide resolves to the JPG's URL. */
  lemma LaunchSlide(render: string -> string, captionRaw: string)
    ensures var fs := FileSystem({"content/images/talks/launch/launch.001.jpg"}, {});
      ResolveSlide("content", "launch", 0, Blank(captionRaw), render, fs)
      == Success(SlideData(render(captionRaw), captionRaw, "/assets/talks/launch/launch.001.jpg", "001"))
  {
    var fs := FileSystem({"content/images/talks/launch/launch.001.jpg"}, {});
    LaunchCandidate("png");
    LaunchCandidate("jpg");
    var png := CandidatePath("content", "launch", 0, "png");
    assert png[|png| - 3] == 'p';
    assert FileExists(fs, png) == Absent;
    var jpg := CandidatePath("content", "launch", 0, "jpg");
    assert jpg == "content/images/talks/launch/launch.001.jpg";
    assert FileExists(fs, jpg) == Exists;
    assert SlideNumber(1) == "001";
    assert CandidateName("launch", 0, "jpg") == "launch.001.jpg";
    assert AssetPath("launch", "launch.001.jpg") == "/assets/talks/launch/launch.001.jpg";
  }

  /** The slide loop over the one slide of the launch talk. */
  lemma LaunchSlides(render: string -> string)
    ensures var fs := FileSystem({"content/images/talks/launch/launch.001.jpg"}, {});
      ResolveFrom(SlideStep("content", "launch", render, fs), [Blank("Intro slide")], 0)
      == Success([SlideData(render("Intro slide"), "Intro slide", "/assets/talks/launch/launch.001.jpg", "001")])
  {
    var fs := FileSystem({"content/images/talks/launch/launch.001.jpg"}, {});
    var slide := SlideData(render("Intro slide"), "Intro slide", "/assets/talks/launch/launch.001.jpg", "001");
    LaunchSlide(render, "Intro slide");
    var step := SlideStep("content", "launch", render, fs);
    var ss := [Blank("Intro slide")];
    assert step(0, ss[0]) == Success(slide);
    assert ResolveFrom(step, ss, 1) == Success([]);
    assert [slide] + [] == [slide];
  }

  /** A talk "launch.yaml" with every required field and one slide whose only
      image is the JPG compiles to slug "launch", slide "001" and the JPG's
      URL. The intro must render to something non-empty. */
  lemma LaunchScenario(render: string -> string)
    requires render("Hello") != ""
    ensures
      var fields := TalkFields("RubyConf", "Hello", "Austin", Some(1425168000), ["Intro slide"], "", "Launch Talk");
      var fs := FileSystem({"content/images/talks/launch/launch.001.jpg"}, {});
      CompileResult("content", "content/talks", "launch.yaml", false, Decoded(fields), render, fs)
      == Success(TalkData(false, "RubyConf", render("Hello"), "Hello", "Austin", Some(1425168000),
                          [SlideData(render("Intro slide"), "Intro slide", "/assets/talks/launch/launch.001.jpg", "001")],
                          "launch", "", "Launch Talk"))
  {
    var fields := TalkFields("RubyConf", "Hello", "Austin", Some(1425168000), ["Intro slide"], "", "Launch Talk");
    SlugOfLaunch();
    var t := Prepare(fields, "launch.yaml", false, render);
    assert t.slug == "launch" && t.slides == [Blank("Intro slide")];
    assert FirstMissing(t) == None;
    LaunchSlides(render);
  }
}
