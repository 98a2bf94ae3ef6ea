/** The generate-rule handler of the rules manager: from the fields of a
    request it builds the text of an MDC rule file and the name to save it
    under. A field the client leaves out is modelled by its empty value
    ("" , [] or false): the handler tests every field only for truthiness,
    so a missing field and an empty one give the same rule. */
module RuleGenerator {
  import opened Text

  datatype RuleRequest = RuleRequest(
    name: string,
    description: string,
    globs: seq<string>,
    alwaysApply: bool,
    mustReadFiles: seq<string>,
    instructions: string)

  datatype GeneratedRule = GeneratedRule(content: string, filename: string)

  /** The serialisation of the globs array (JSON.stringify in the handler)
      is taken as a parameter: the model fixes nothing about it. */
  type Stringify = seq<string> -> string

  const Fence := "---\n"
  const FenceClose := "---\n\n"
  const DescriptionKey := "description: \""
  const GlobsKey := "globs: "
  const AlwaysApplyLine := "alwaysApply: true\n"
  const MustReadHeading := "# Files You MUST Read\n\n"
  const MustReadIntro := "Before doing ANYTHING, you MUST read and understand these files:\n\n"
  const MustReadOutro := "\n" + "**DO NOT proceed without reading these files first.**\n\n"
  const BulletOpen := "- `"
  const InstructionsHeading := "# Instructions\n\n"
  const RuleExtension := ".mdc"
  const DefaultRuleName := "rule"

  function DescriptionLine(description: string): string
  {
    DescriptionKey + description + "\"" + "\n"
  }

  function GlobsLine(json: string): string
  {
    GlobsKey + json + "\n"
  }

  function Bullet(file: string): string
  {
    BulletOpen + file + "`" + "\n"
  }

  /** One bullet per file, in the order of the files. */
  function Bullets(files: seq<string>): string
  {
    if files == [] then "" else Bullet(files[0]) + Bullets(files[1..])
  }

  /** The front-matter block: the opening fence, the lines of the fields
      that are set, and the closing fence with its blank line. */
  function FrontMatter(req: RuleRequest, stringify: Stringify): string
  {
    Fence + FrontMatterFields(req, stringify) + FenceClose
  }

  /** The lines between the two fences, in the order description, globs,
      alwaysApply. */
  function FrontMatterFields(req: RuleRequest, stringify: Stringify): string
  {
    (if req.description != "" then DescriptionLine(req.description) else "")
    + (if |req.globs| > 0 then GlobsLine(stringify(req.globs)) else "")
    + (if req.alwaysApply then AlwaysApplyLine else "")
  }

  function MustReadSection(files: seq<string>): string
  {
    if files == [] then ""
    else MustReadHeading + MustReadIntro + Bullets(files) + MustReadOutro
  }

  function InstructionsSection(instructions: string): string
  {
    if instructions == "" then "" else InstructionsHeading + instructions + "\n"
  }

  /** Everything after the front matter. */
  function Body(req: RuleRequest): string
  {
    MustReadSection(req.mustReadFiles) + InstructionsSection(req.instructions)
  }

  /** The text the handler returns as `content`. */
  function RuleContent(req: RuleRequest, stringify: Stringify): string
  {
    FrontMatter(req, stringify) + Body(req)
  }

  /** The name the handler returns as `filename`: the requested name, or
      "rule" when none was given, with the ".mdc" extension. */
  function RuleFilename(name: string): (f: string)
    ensures EndsWith(f, RuleExtension)
    ensures f[..|f| - |RuleExtension|] == if name == "" then DefaultRuleName else name
  {
    var stem := if name == "" then DefaultRuleName else name;
    SuffixOfConcat(stem, RuleExtension);
    stem + RuleExtension
  }

  /** What follows the front matter is empty exactly when there are
      neither must-read files nor instructions; otherwise it opens with the
      must-read heading when there are files and with the instructions
      heading when there are none. */
  lemma BodyOpening(req: RuleRequest)
    ensures Body(req) == "" <==> req.mustReadFiles == [] && req.instructions == ""
    ensures req.mustReadFiles != [] ==> StartsWith(Body(req), MustReadHeading)
    ensures req.mustReadFiles == [] && req.instructions != "" ==> StartsWith(Body(req), InstructionsHeading)
  {
    var files := req.mustReadFiles;
    var instructions := InstructionsSection(req.instructions);
    if files != [] {
      var afterHeading := MustReadIntro + Bullets(files) + MustReadOutro;
      assert MustReadSection(files) == MustReadHeading + afterHeading;
      AppendAssoc(MustReadHeading, afterHeading, instructions);
      PrefixOfConcat(MustReadHeading, afterHeading + instructions);
    } else if req.instructions != "" {
      assert Body(req) == InstructionsHeading + (req.instructions + "\n");
      PrefixOfConcat(InstructionsHeading, req.instructions + "\n");
    }
  }

  /** The text opens with the fence, and the front-matter block, closed by
      the fence and a blank line, comes before any body text. */
  lemma RuleLayout(req: RuleRequest, stringify: Stringify)
    ensures var c := RuleContent(req, stringify);
      var k := |FrontMatter(req, stringify)|;
      && StartsWith(c, Fence)
      && k <= |c| && EndsWith(c[..k], FenceClose)
      && c[k..] == Body(req)
  {
    var fields := FrontMatterFields(req, stringify);
    var body := Body(req);
    PrefixOfConcat(FrontMatter(req, stringify), body);
    SuffixOfConcat(Fence + fields, FenceClose);
    AppendAssoc(Fence + fields, FenceClose, body);
    AppendAssoc(Fence, fields, FenceClose + body);
    PrefixOfConcat(Fence, fields + (FenceClose + body));
  }

  /** Appending a file to the list appends its bullet to the text. */
  lemma {:induction false} BulletsSnoc(files: seq<string>, f: string)
    ensures Bullets(files + [f]) == Bullets(files) + Bullet(f)
  {
    if files == [] {
      assert [] + [f] == [f];
      assert Bullets([f][1..]) == "";
    } else {
      assert (files + [f])[0] == files[0];
      assert (files + [f])[1..] == files[1..] + [f];
      BulletsSnoc(files[1..], f);
    }
  }

  /** The opening of the handler body: the fence, the line of each
      front-matter field that is set, and the closing fence. */
  method WriteFrontMatter(req: RuleRequest, stringify: Stringify) returns (content: string)
    ensures content == FrontMatter(req, stringify)
  {
    content := Fence;
    ghost var descPart := if req.description != "" then DescriptionLine(req.description) else "";
    ghost var globsPart := if |req.globs| > 0 then GlobsLine(stringify(req.globs)) else "";
    ghost var alwaysPart := if req.alwaysApply then AlwaysApplyLine else "";
    if req.description != "" {
      content := content + DescriptionLine(req.description);
    }
    assert content == Fence + descPart;
    if |req.globs| > 0 {
      content := content + GlobsLine(stringify(req.globs));
    }
    assert content == Fence + descPart + globsPart;
    if req.alwaysApply {
      content := content + AlwaysApplyLine;
    }
    assert content == Fence + descPart + globsPart + alwaysPart;
    AppendAssoc(Fence, descPart, globsPart);
    AppendAssoc(Fence, descPart + globsPart, alwaysPart);
    assert content == Fence + FrontMatterFields(req, stringify);
    content := content + FenceClose;
  }

  /** The `forEach` over the must-read files: one bullet per file is
      appended to `content`, in the order of the files. */
  method AppendBullets(content: string, files: seq<string>) returns (extended: string)
    ensures extended == content + Bullets(files)
  {
    extended := content;
    var i := 0;
    while i < |files|
      invariant 0 <= i <= |files|
      invariant extended == content + Bullets(files[..i])
    {
      BulletsSnoc(files[..i], files[i]);
      assert files[..i + 1] == files[..i] + [files[i]];
      AppendAssoc(content, Bullets(files[..i]), Bullet(files[i]));
      extended := extended + Bullet(files[i]);
      i := i + 1;
    }
    assert files[..i] == files;
  }

  /** The must-read block of the handler body: when there are files, the
      heading and introduction, the bullets, and the closing warning are
      appended to `content`. */
  method AppendMustRead(content: string, files: seq<string>) returns (extended: string)
    ensures extended == content + MustReadSection(files)
  {
    extended := content;
    if |files| > 0 {
      extended := extended + MustReadHeading;
      extended := extended + MustReadIntro;
      extended := AppendBullets(extended, files);
      extended := extended + MustReadOutro;
      AppendAssoc4(content, MustReadHeading, MustReadIntro, Bullets(files), MustReadOutro);
    } else {
      assert MustReadSection(files) == "";
    }
  }

  /** The handler body: the front matter, the must-read block and the
      instructions block, each appended to `content` in turn. */
  method GenerateRule(req: RuleRequest, stringify: Stringify) returns (rule: GeneratedRule)
    ensures rule.content == RuleContent(req, stringify)
    ensures rule.filename == RuleFilename(req.name)
  {
    var content := WriteFrontMatter(req, stringify);
    ghost var frontMatter := content;
    content := AppendMustRead(content, req.mustReadFiles);
    ghost var withMustRead := content;
    if req.instructions != "" {
      content := content + InstructionsHeading + req.instructions + "\n";
      AppendAssoc3(withMustRead, InstructionsHeading, req.instructions, "\n");
      assert content == withMustRead + (InstructionsHeading + req.instructions + "\n");
    }
    assert content == withMustRead + InstructionsSection(req.instructions);
    AppendAssoc(frontMatter, MustReadSection(req.mustReadFiles), InstructionsSection(req.instructions));
    rule := GeneratedRule(content, RuleFilename(req.name));
  }
}
