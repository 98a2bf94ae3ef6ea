/** A reader for the rule text that the generator writes: it recovers, in
    the fixed order the generator uses, which front-matter lines are there
    and with what values, the must-read file list and the instructions.
    It splits the text at line breaks and takes each value verbatim; it is
    not the YAML front-matter parser that the rules endpoint uses on saved
    rules. The round-trip lemma shows that, when every value fits on one
    line, this reader gets back every field the generator wrote; the last
    lemma shows two different requests whose texts coincide once a
    description spans several lines. */
module RuleReader {
  import opened Wrappers
  import opened Text
  import opened RuleGenerator

  datatype FrontMatterView = FrontMatterView(
    description: Option<string>,
    globs: Option<string>,
    alwaysApply: bool)

  datatype RuleView = RuleView(
    frontMatter: FrontMatterView,
    mustReadFiles: Option<seq<string>>,
    instructions: Option<string>)

  /** Reads an optional line `key value closer` at the head of `s`: None
      when the line is there but malformed, otherwise the value (if the
      line was there) and the text after the line. */
  function ReadField(s: string, key: string, closer: string): (r: Option<(Option<string>, string)>)
    ensures r.Some? ==> |r.value.1| <= |s|
    ensures r.Some? && r.value.0.Some? ==> |r.value.1| < |s|
  {
    if !StartsWith(s, key) then Some((None, s))
    else match SplitLine(s[|key|..])
      case None => None
      case Some((line, rest)) =>
        if EndsWith(line, closer) then Some((Some(line[..|line| - |closer|]), rest)) else None
  }

  function ParseFrontMatter(s: string): Option<(FrontMatterView, string)>
  {
    if !StartsWith(s, Fence) then None
    else
      var d :- ReadField(s[|Fence|..], DescriptionKey, "\"");
      var g :- ReadField(d.1, GlobsKey, "");
      var always := StartsWith(g.1, AlwaysApplyLine);
      var afterFields := if always then g.1[|AlwaysApplyLine|..] else g.1;
      if !StartsWith(afterFields, FenceClose) then None
      else Some((FrontMatterView(d.0, g.0, always), afterFields[|FenceClose|..]))
  }

  /** Reads the bullet lines at the head of `s`, stopping at the first line
      that is not a bullet. */
  function ParseBullets(s: string): Option<(seq<string>, string)>
    decreases |s|
  {
    var bullet :- ReadField(s, BulletOpen, "`");
    match bullet.0
      case None => Some(([], s))
      case Some(file) =>
        var tail :- ParseBullets(bullet.1);
        Some(([file] + tail.0, tail.1))
  }

  function ParseMustRead(s: string): Option<(Option<seq<string>>, string)>
  {
    var header := MustReadHeading + MustReadIntro;
    if !StartsWith(s, header) then Some((None, s))
    else
      var bullets :- ParseBullets(s[|header|..]);
      if !StartsWith(bullets.1, MustReadOutro) then None
      else Some((Some(bullets.0), bullets.1[|MustReadOutro|..]))
  }

  /** The instructions section runs to the end of the text. */
  function ParseInstructions(s: string): Option<Option<string>>
  {
    if s == "" then Some(None)
    else if StartsWith(s, InstructionsHeading) && |InstructionsHeading| < |s| && s[|s| - 1] == '\n'
    then Some(Some(s[|InstructionsHeading|..|s| - 1]))
    else None
  }

  function ParseRule(text: string): Option<RuleView>
  {
    var fm :- ParseFrontMatter(text);
    var mr :- ParseMustRead(fm.1);
    var instructions :- ParseInstructions(mr.1);
    Some(RuleView(fm.0, mr.0, instructions))
  }

  /** What a reader should find in the rule generated for `req`: each
      optional part is there exactly when its field is set. */
  function ExpectedView(req: RuleRequest, stringify: Stringify): RuleView
  {
    RuleView(
      FrontMatterView(
        if req.description != "" then Some(req.description) else None,
        if |req.globs| > 0 then Some(stringify(req.globs)) else None,
        req.alwaysApply),
      if req.mustReadFiles == [] then None else Some(req.mustReadFiles),
      if req.instructions == "" then None else Some(req.instructions))
  }

  /** The round trip needs every written value to stay on its own line. */
  predicate LineSafe(req: RuleRequest, stringify: Stringify)
  {
    && OneLine(req.description)
    && (|req.globs| > 0 ==> OneLine(stringify(req.globs)))
    && forall f :: f in req.mustReadFiles ==> OneLine(f)
  }

  lemma ReadFieldPresent(key: string, value: string, closer: string, rest: string)
    requires OneLine(value) && OneLine(closer)
    ensures ReadField(key + value + closer + "\n" + rest, key, closer) == Some((Some(value), rest))
  {
    var line := value + closer;
    assert key + value + closer + "\n" + rest == key + (line + "\n" + rest);
    PrefixOfConcat(key, line + "\n" + rest);
    OneLineAppend(value, closer);
    SplitLineOf(line, rest);
    SuffixOfConcat(value, closer);
  }

  /** An optional line is read back as present, with its value, exactly
      when it was written. */
  lemma OptionalFieldRoundTrip(key: string, present: bool, value: string, closer: string, rest: string)
    requires present ==> OneLine(value)
    requires OneLine(closer)
    requires !StartsWith(rest, key)
    ensures ReadField((if present then key + value + closer + "\n" else "") + rest, key, closer)
         == Some((if present then Some(value) else None, rest))
  {
    if present {
      ReadFieldPresent(key, value, closer, rest);
    } else {
      assert "" + rest == rest;
    }
  }

  lemma {:induction false} BulletsRoundTrip(files: seq<string>, rest: string)
    requires forall f :: f in files ==> OneLine(f)
    requires !StartsWith(rest, BulletOpen)
    ensures ParseBullets(Bullets(files) + rest) == Some((files, rest))
  {
    if files == [] {
      assert Bullets(files) + rest == rest;
    } else {
      var f := files[0];
      var s := Bullets(files) + rest;
      var tail := Bullets(files[1..]) + rest;
      AppendAssoc(Bullet(f), Bullets(files[1..]), rest);
      ReadFieldPresent(BulletOpen, f, "`", tail);
      BulletsRoundTrip(files[1..], rest);
      assert [f] + files[1..] == files;
    }
  }

  /** The front matter is read back, field by field, from the head of any
      text it starts. */
  lemma FrontMatterRoundTrip(req: RuleRequest, stringify: Stringify, rest: string)
    requires LineSafe(req, stringify)
    ensures ParseFrontMatter(FrontMatter(req, stringify) + rest)
         == Some((ExpectedView(req, stringify).frontMatter, rest))
  {
    var d, json := req.description, stringify(req.globs);
    var descPart := if d != "" then DescriptionLine(d) else "";
    var globsPart := if |req.globs| > 0 then GlobsLine(json) else "";
    var alwaysPart := if req.alwaysApply then AlwaysApplyLine else "";
    var t4 := FenceClose + rest;
    var t3 := alwaysPart + t4;
    var t2 := globsPart + t3;
    var t1 := descPart + t2;
    var s := FrontMatter(req, stringify) + rest;
    var fields := FrontMatterFields(req, stringify);
    assert fields == descPart + globsPart + alwaysPart;
    AppendAssoc(Fence + fields, FenceClose, rest);
    AppendAssoc(Fence, fields, t4);
    AppendAssoc(descPart + globsPart, alwaysPart, t4);
    AppendAssoc(descPart, globsPart, t3);
    assert s == Fence + t1;
    PrefixOfConcat(Fence, t1);

    // the closing fence, then each optional line from the last to the first
    PrefixOfConcat(FenceClose, rest);
    if req.alwaysApply {
      PrefixOfConcat(AlwaysApplyLine, t4);
    } else {
      assert t3 == t4;
      DiffersAt(t3, AlwaysApplyLine, 0);
    }
    assert t3[0] == 'a' || t3[0] == '-';
    DiffersAt(t3, GlobsKey, 0);
    assert GlobsLine(json) == GlobsKey + json + "" + "\n";
    OptionalFieldRoundTrip(GlobsKey, |req.globs| > 0, json, "", t3);
    assert t2[0] == 'g' || t2[0] == 'a' || t2[0] == '-';
    DiffersAt(t2, DescriptionKey, 0);
    OptionalFieldRoundTrip(DescriptionKey, d != "", d, "\"", t2);
  }

  lemma MustReadRoundTrip(files: seq<string>, rest: string)
    requires forall f :: f in files ==> OneLine(f)
    requires !StartsWith(rest, MustReadHeading + MustReadIntro)
    ensures ParseMustRead(MustReadSection(files) + rest)
         == Some((if files == [] then None else Some(files), rest))
  {
    if files == [] {
      assert MustReadSection(files) + rest == rest;
    } else {
      var header := MustReadHeading + MustReadIntro;
      var bullets := Bullets(files);
      AppendAssoc(header + bullets, MustReadOutro, rest);
      AppendAssoc(header, bullets, MustReadOutro + rest);
      PrefixOfConcat(header, bullets + (MustReadOutro + rest));
      assert (MustReadOutro + rest)[0] == '\n';
      DiffersAt(MustReadOutro + rest, BulletOpen, 0);
      BulletsRoundTrip(files, MustReadOutro + rest);
      PrefixOfConcat(MustReadOutro, rest);
    }
  }

  lemma InstructionsRoundTrip(instructions: string)
    ensures ParseInstructions(InstructionsSection(instructions))
         == Some(if instructions == "" then None else Some(instructions))
  {
    if instructions != "" {
      var s := InstructionsSection(instructions);
      PrefixOfConcat(InstructionsHeading, instructions + "\n");
      AppendAssoc(InstructionsHeading, instructions, "\n");
      assert s[|InstructionsHeading|..|s| - 1] == instructions;
    }
  }

  lemma InstructionsAreNotMustRead(instructions: string)
    ensures !StartsWith(InstructionsSection(instructions), MustReadHeading + MustReadIntro)
  {
    if instructions != "" {
      var s := InstructionsSection(instructions);
      var header := MustReadHeading + MustReadIntro;
      assert InstructionsHeading[2] == 'I' && MustReadHeading[2] == 'F';
      assert s == InstructionsHeading + (instructions + "\n");
      assert s[2] == 'I';
      assert header[2] == 'F';
      DiffersAt(s, header, 2);
    }
  }

  /** Reading back a generated rule finds a description line exactly when
      a description was given, a globs line exactly when the globs list is
      non-empty, an alwaysApply line exactly when alwaysApply is set, a
      must-read section holding exactly the given files in their order
      exactly when there are any, and an instructions section exactly when
      instructions were given, in that order and with those values. */
  lemma RuleRoundTrip(req: RuleRequest, stringify: Stringify)
    requires LineSafe(req, stringify)
    ensures var view := ParseRule(RuleContent(req, stringify));
      && view.Some?
      && view.value.frontMatter.description == (if req.description != "" then Some(req.description) else None)
      && view.value.frontMatter.globs == (if |req.globs| > 0 then Some(stringify(req.globs)) else None)
      && view.value.frontMatter.alwaysApply == req.alwaysApply
      && view.value.mustReadFiles == (if req.mustReadFiles == [] then None else Some(req.mustReadFiles))
      && view.value.instructions == (if req.instructions == "" then None else Some(req.instructions))
  {
    var expected := ExpectedView(req, stringify);
    var instructions := InstructionsSection(req.instructions);
    FrontMatterRoundTrip(req, stringify, Body(req));
    InstructionsAreNotMustRead(req.instructions);
    MustReadRoundTrip(req.mustReadFiles, instructions);
    InstructionsRoundTrip(req.instructions);
    assert ParseRule(RuleContent(req, stringify)) == Some(expected);
  }

  /** Without the one-line condition the text no longer determines the
      request. A description that goes on, after a quote and a line break,
      with an `alwaysApply` line, the closing fence, the instructions
      heading and some text gives the same rule text as the description
      before the quote with `alwaysApply` set and, as instructions, that
      text followed by a quote, a line break and a fence. */
  lemma MultiLineDescriptionIsAmbiguous(head: string, tail: string, stringify: Stringify)
    requires head != ""
    ensures var spliced := RuleRequest("", head + Splice + tail, [], false, [], "");
      var plain := RuleRequest("", head, [], true, [], tail + "\"" + "\n" + Fence);
      && !LineSafe(spliced, stringify)
      && spliced != plain
      && RuleContent(spliced, stringify) == RuleContent(plain, stringify)
  {
    assert (head + Splice + tail)[|head| + 1] == '\n';
    assert Fence + "\n" == FenceClose;
    SplicedText(head, tail, stringify);
    PlainText(head, tail, stringify);
  }

  /** What the spliced description carries between its head and its tail:
      a quote, a line break, the `alwaysApply` line, the closing fence and
      the instructions heading. */
  const Splice := "\"" + "\n" + AlwaysApplyLine + FenceClose + InstructionsHeading

  /** The text both requests share up to the tail. */
  function SplicedOpening(head: string): string
  {
    Fence + DescriptionKey + head + "\"" + "\n" + AlwaysApplyLine + FenceClose + InstructionsHeading
  }

  /** The text generated for the request with the spliced description. */
  lemma SplicedText(head: string, tail: string, stringify: Stringify)
    ensures RuleContent(RuleRequest("", head + Splice + tail, [], false, [], ""), stringify)
      == SplicedOpening(head) + tail + "\"" + "\n" + FenceClose
  {
    var d := head + Splice + tail;
    var q, n := "\"", "\n";
    var w := Fence + DescriptionKey;
    assert RuleContent(RuleRequest("", d, [], false, [], ""), stringify) == Fence + DescriptionLine(d) + FenceClose;
    AppendAssoc4(Fence, DescriptionKey, d, q, n);
    AppendAssoc(w, head + Splice, tail);
    AppendAssoc(w, head, Splice);
    AppendAssoc4(w + head, q, n, AlwaysApplyLine, FenceClose);
    AppendAssoc(w + head, q + n + AlwaysApplyLine + FenceClose, InstructionsHeading);
  }

  /** The text generated for the request that sets `alwaysApply` and the
      instructions. */
  lemma PlainText(head: string, tail: string, stringify: Stringify)
    requires head != ""
    ensures RuleContent(RuleRequest("", head, [], true, [], tail + "\"" + "\n" + Fence), stringify)
      == SplicedOpening(head) + tail + "\"" + "\n" + Fence + "\n"
  {
    var instructions := tail + "\"" + "\n" + Fence;
    var plain := RuleRequest("", head, [], true, [], instructions);
    var q, n := "\"", "\n";
    var frontMatter := Fence + DescriptionKey + head + q + n + AlwaysApplyLine + FenceClose;
    assert FrontMatter(plain, stringify) == Fence + DescriptionLine(head) + AlwaysApplyLine + FenceClose by {
      AppendAssoc(Fence, DescriptionLine(head), AlwaysApplyLine);
    }
    AppendAssoc4(Fence, DescriptionKey, head, q, n);
    assert Body(plain) == InstructionsHeading + instructions + n;
    AppendAssoc3(frontMatter, InstructionsHeading, instructions, n);
    AppendAssoc4(SplicedOpening(head), tail, q, n, Fence);
  }
}
