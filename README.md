# Cursor Rules Manager — a Dafny model of its server logic

The rules manager is a small local web server. It keeps rule files for an AI
coding assistant in the `.cursor/rules` directory of each project on the
machine. Most of it is HTTP routing and file I/O. This project models the
four pieces of `server.js` whose results follow from their inputs alone:

- **Rule generation** (`RuleGenerator`, `rule_generator.dfy`). The
  generate-rule endpoint turns a request (`name`, `description`, `globs`,
  `alwaysApply`, `mustReadFiles`, `instructions`) into the text of an MDC
  rule and its file name. `GenerateRule` is the handler body as a method. It
  grows the text step by step and loops once per must-read file. It is
  proved equal to the specification function `RuleContent`.
  `RuleReader` (`rule_reader.dfy`) is an independent reader of that text.
  The round-trip lemma `RuleRoundTrip` shows which front-matter lines and
  sections the reader finds, with which values and in which order. Each
  optional part is present exactly when its field is set.
- **Rule listing** (`RuleListing`, `rule_listing.dfy`). A project's rules
  directory listing is cut down to the names ending in `.mdc` or `.md`.
- **Project discovery** (`ProjectScan`, `project_scan.dfy`).
  `scanForProjects` runs over an abstract filesystem (`Fs`, `fs.dfy`). That
  filesystem is a set of existing paths plus the listing of each readable
  directory. The scan is a method with two nested loops, proved equal to
  the function `Projects`. Lemmas about `Projects` state which entries
  become projects, how `hasCursorRules` is set, and in which order
  projects come out.
- **File picker** (`FilePicker`, `file_picker.dfy`). It returns the first
  200 results of the project file search, or nothing when the search
  fails.

The request fields are modelled as strings, a list of strings and a
boolean. A field the client leaves out is modelled by its empty value (`""`,
`[]`, `false`). The handler only tests each field for truthiness, so a
missing field and an empty one give the same rule. The serialisation of the
globs list (`JSON.stringify`) is the parameter `stringify`. The model
assumes nothing about it. Joining paths is `dir + "/" + name`.

## Model

| member | source | states |
|---|---|---|
| RuleGenerator.GenerateRule | server.js:191-214 | The content, built by appending the front matter, the must-read block and the instructions block in turn, equals `RuleContent`: the front matter, then one bullet per must-read file in input order, then the instructions section. The filename is `RuleFilename(name)`. |
| RuleGenerator.WriteFrontMatter | server.js:194-198 | The opening fence, the description, globs and alwaysApply lines appended only for the fields that are set, and the closing fence together give exactly `FrontMatter`. |
| RuleGenerator.AppendMustRead | server.js:200-207 | Appends exactly `MustReadSection(files)`: nothing when there are no files, otherwise the heading, the introduction, the bullets and the closing warning. |
| RuleGenerator.AppendBullets | server.js:202-205 | The loop over the must-read files appends exactly `Bullets(files)`, one bullet per file in input order. |
| RuleGenerator.RuleFilename | server.js:213 | The returned filename ends in `.mdc`. Its stem is the requested name, or `rule` when the name is empty or missing. |
| RuleGenerator.RuleLayout | server.js:194-198 | The content starts with `---\n`. The front-matter block is a prefix of the content and ends with `---\n\n`. Everything after it is the body. |
| RuleGenerator.BodyOpening | server.js:198-211 | The body is empty iff there are no must-read files and no instructions, so then the content is exactly the front-matter block. Otherwise the body opens with the must-read heading when there are files, and with the instructions heading when there are none. |
| RuleGenerator.BulletsSnoc | server.js:203-205 | Each step of the loop over must-read files appends exactly that file's bullet. |
| RuleReader.RuleRoundTrip | server.js:194-211 | Reading the generated text back, in the fixed order (description, globs, alwaysApply, must-read section, instructions), finds: a description line iff `description` is non-empty, with its value; a globs line iff `globs` is non-empty, holding its serialisation; an `alwaysApply: true` line iff `alwaysApply`; a must-read section iff `mustReadFiles` is non-empty, listing exactly those files in order; and an instructions section iff `instructions` is non-empty, after the must-read section. |
| RuleReader.FrontMatterRoundTrip | server.js:194-198 | The front-matter block is read back field by field, from the head of any text it starts, leaving the rest untouched. |
| RuleReader.MustReadRoundTrip | server.js:200-207 | The must-read section is read back as exactly the given file list, followed by the DO NOT proceed line. It is absent when the list is empty. |
| RuleReader.BulletsRoundTrip | server.js:203-205 | The bullet lines are read back as exactly the given files, one per bullet, in order. |
| RuleReader.InstructionsRoundTrip | server.js:209-211 | The instructions section is read back as the given instructions. It is absent when they are empty. |
| RuleReader.MultiLineDescriptionIsAmbiguous | server.js:194-211 | Once the description may span lines, the text no longer determines the request: a description that continues with a quote, a line break, an `alwaysApply` line, the closing fence and the instructions heading gives the same text as a request with the short description, `alwaysApply` set and instructions ending in a quote and a fence. |
| RuleListing.SelectRuleFiles | server.js:127 | Every kept name ends in `.mdc` or `.md` and comes from the listing. Every such name of the listing is kept. Each kept name occurs as often as in the listing, and no other name occurs. |
| RuleListing.SelectAppend | server.js:127 | Filtering a listing split in two gives the kept names of the first part followed by those of the second, so listing order is preserved. |
| RuleListing.SelectKeepsAll | server.js:127 | A listing made only of rule files is kept whole and unchanged. |
| RuleListing.SelectIdempotent | server.js:127 | Filtering the result again changes nothing. |
| RuleListing.ListRuleFiles | server.js:121-127 | A project whose `.cursor/rules` does not exist yields no names. One whose rules path exists but cannot be read yields an error. Otherwise the result is the filtered listing, in listing order. |
| RuleListing.GeneratedFilenameIsListed | server.js:213 | Every filename the generator returns is one that the rule-listing filter of server.js:127 keeps. |
| FilePicker.PickerFiles | server.js:177-187 | The result has at most 200 entries and is a prefix of the search result. It is the whole result when that has at most 200 entries, and exactly 200 entries otherwise. A failed search yields nothing. |
| ProjectScan.ScanForProjects | server.js:52-81 | The nested loops return exactly `Projects(fs, scanPaths)`. |
| ProjectScan.ProbeMatches | server.js:61-72 | One entry yields a project iff it is a directory holding `.cursor` or `.git`. That project is described by `ReportedFrom`: the entry's name, the joined path, and `hasCursorRules` iff both `.cursor` and `.cursor/rules` exist. |
| ProjectScan.ProjectsSound | server.js:55-72 | Every reported project comes from a directory entry of a scan path that exists and can be read, and is described by `ReportedFrom` for that entry. |
| ProjectScan.ProjectsComplete | server.js:55-72 | Every directory holding `.cursor` or `.git`, under a scan path that exists and can be read, is reported. |
| ProjectScan.CursorRulesExist | server.js:70 | A project reported with `hasCursorRules` has both `.cursor` and `.cursor/rules` on disk. |
| ProjectScan.ProjectsAppend | server.js:55 | The projects of a list of scan paths split in two are those of the first part followed by those of the second, so scan-path order is kept. |
| ProjectScan.EntryProjectsAppend | server.js:60 | Within one scan path, projects come out in listing order. |
| ProjectScan.MissingScanPathSkipped | server.js:56 | A scan path that does not exist contributes nothing. Removing it from the list leaves the result unchanged. |

## Left out

- Express setup, routing, CORS, static files, JSON responses and the listening port (server.js:9-12, 216-219). This is HTTP plumbing.
- All filesystem writes and reads of contents. This covers the start-up creation of the configuration directory and files, the global-rules endpoints, saving and deleting a rule, and reading each rule's text (server.js:19-39, 83-94, 128-137, 142-171). These are effects on disk. Only existence and directory listings are modelled.
- `getConfig`/`saveConfig` and the scan-path endpoints (server.js:42-49, 96-116). They are a JSON round trip through a file.
- The front-matter parsing of saved rules by the gray-matter library (server.js:130). It is a foreign library. The rules endpoint is modelled down to the list of file names.
- RuleListing.ListRuleFiles: a kept name whose file cannot be read or parsed makes the whole rules endpoint fail (server.js:128-137). The model stops at the names.
- The glob search and its ignore list and depth bound (server.js:178-183). Its outcome is an input of `PickerFiles`.
- Base64 decoding of the project path parameter (server.js:120, 144, 162, 175). Paths are given as strings.
- Node's `path.join` normalisation. `Join` concatenates with `/`.
- `JSON.stringify(globs)` is the opaque parameter `stringify`. `globs` is modelled only as a list of strings. A client sending a single string would get that string serialised instead.
- Dynamic typing of request fields. Values other than strings, string lists and booleans are not modelled.
- The error log line of `scanForProjects` (server.js:75-77). A scan path whose listing fails contributes nothing.
- Asynchrony of the handlers. Every modelled operation runs to completion without interleaving.
- RuleReader.RuleRoundTrip: holds only when the description, the serialised globs and every must-read file fit on one line. The handler does not escape line breaks (server.js:195-196, 204), so a value with a line break spills onto lines of its own. `MultiLineDescriptionIsAmbiguous` shows two requests that then give the same text.
- RuleReader: reads each value verbatim up to its closing quote or line break. The rules endpoint reads the front matter with a YAML parser instead. A description containing `"` or `\` is written unescaped inside double quotes (server.js:195), so that parser rejects the front matter or decodes the description differently. The model does not capture YAML parsing.
- RuleReader.FrontMatterRoundTrip: same one-line condition on the description and the serialised globs.
- RuleReader.MustReadRoundTrip: same one-line condition on every must-read file.
- RuleReader.BulletsRoundTrip: same one-line condition on every must-read file.
