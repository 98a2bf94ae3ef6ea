/** The rules endpoint of a project: the names in the project's
    `.cursor/rules` directory that end in ".mdc" or ".md", in listing
    order. */
module RuleListing {
  import opened Wrappers
  import opened Text
  import opened Fs
  import RuleGenerator

  predicate IsRuleFile(name: string)
  {
    EndsWith(name, ".mdc") || EndsWith(name, ".md")
  }

  /** The rule files among `names`, in their order, each as often as it
      occurs there. */
  function SelectRuleFiles(names: seq<string>): (kept: seq<string>)
    ensures |kept| <= |names|
    ensures forall n :: n in kept ==> n in names && IsRuleFile(n)
    ensures forall n :: n in names && IsRuleFile(n) ==> n in kept
    ensures forall n :: multiset(kept)[n] == if IsRuleFile(n) then multiset(names)[n] else 0
  {
    if names == [] then []
    else
      assert names == [names[0]] + names[1..];
      var rest := SelectRuleFiles(names[1..]);
      if IsRuleFile(names[0]) then [names[0]] + rest else rest
  }

  /** Selection works piece by piece: the rule files of a listing are
      those of its first part followed by those of the rest, which is to
      say the listing order is kept. */
  lemma {:induction false} SelectAppend(a: seq<string>, b: seq<string>)
    ensures SelectRuleFiles(a + b) == SelectRuleFiles(a) + SelectRuleFiles(b)
  {
    if a == [] {
      assert a + b == b;
    } else {
      assert (a + b)[0] == a[0];
      assert (a + b)[1..] == a[1..] + b;
      SelectAppend(a[1..], b);
    }
  }

  /** A listing of rule files only is kept whole. */
  lemma {:induction false} SelectKeepsAll(names: seq<string>)
    requires forall n :: n in names ==> IsRuleFile(n)
    ensures SelectRuleFiles(names) == names
  {
    if names != [] {
      SelectKeepsAll(names[1..]);
    }
  }

  lemma SelectIdempotent(names: seq<string>)
    ensures SelectRuleFiles(SelectRuleFiles(names)) == SelectRuleFiles(names)
  {
    SelectKeepsAll(SelectRuleFiles(names));
  }

  datatype ListError = ReadFailed(path: Path)

  function RulesDir(projectPath: Path): Path
  {
    Join(Join(projectPath, ".cursor"), "rules")
  }

  /** The rule-file names the rules endpoint goes on to read for a project:
      none when the rules directory does not exist, an error when it exists
      but cannot be read, and otherwise the names of its listing that end
      in `.mdc` or `.md`, in listing order. */
  function ListRuleFiles(fs: FileSystem, projectPath: Path): (r: Result<seq<string>, ListError>)
    ensures !Exists(fs, RulesDir(projectPath)) ==> r == Ok([])
    ensures Exists(fs, RulesDir(projectPath)) && RulesDir(projectPath) !in fs.listings
            ==> r == Err(ReadFailed(RulesDir(projectPath)))
    ensures Exists(fs, RulesDir(projectPath)) && RulesDir(projectPath) in fs.listings
            ==> r.Ok? && r.value == SelectRuleFiles(Names(fs.listings[RulesDir(projectPath)]))
  {
    var rulesPath := RulesDir(projectPath);
    if !Exists(fs, rulesPath) then Ok([])
    else if rulesPath !in fs.listings then Err(ReadFailed(rulesPath))
    else Ok(SelectRuleFiles(Names(fs.listings[rulesPath])))
  }

  /** Every file name the generator proposes is one the listing keeps. */
  lemma GeneratedFilenameIsListed(name: string)
    ensures IsRuleFile(RuleGenerator.RuleFilename(name))
  {
  }
}
