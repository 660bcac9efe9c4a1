/**
 * The imperative part of bin/init.js: a file system that the run changes in place, the download
 * loop, the configuration-update loops, and `main`, which strings detection, the three answers,
 * the downloads and the updates together.
 */
module Installer {
  import opened Wrappers
  import opened StringOps
  import opened Catalog
  import opened Selection
  import opened ConfigUpdate

  /** Where the guides are downloaded from. */
  const REPO_RAW: string := "https://raw.githubusercontent.com/ziniman/ai-instruct/main"

  /** The address a guide is fetched from. */
  function Url(g: Guide): string {
    REPO_RAW + "/" + g.file
  }

  /** The part of `p` before its last '/'. */
  function BeforeLastSlash(p: string): (r: string)
    requires '/' in p
    ensures |r| < |p| && p[|r|] == '/' && r == p[..|r|]
    ensures forall i :: |r| < i < |p| ==> p[i] != '/'
    decreases |p|
  {
    if p[|p| - 1] == '/' then p[..|p| - 1]
    else
      assert '/' in p[..|p| - 1] by {
        var k :| 0 <= k < |p| && p[k] == '/';
        assert p[..|p| - 1][k] == '/';
      }
      BeforeLastSlash(p[..|p| - 1])
  }

  /** `path.dirname` of a relative path: "." when it has no directory part. */
  function Dirname(p: string): string {
    if '/' in p then BeforeLastSlash(p) else "."
  }

  /** What `mkdirSync(d, { recursive: true })` creates: `d` and every directory above it. */
  function Ancestry(d: string): set<string> {
    {d} + set i | 0 < i < |d| && d[i] == '/' :: d[..i]
  }

  /** Every path of the documentation directory. */
  predicate InDocs(p: string) {
    DOCS_DIR + "/" <= p
  }

  /** The paths that the downloads write: those of the guides whose fetch succeeds. */
  function Written(guides: seq<Guide>, fetch: string -> Option<string>): (r: set<string>)
    ensures forall p :: p in r ==> InDocs(p)
  {
    var r := set i | 0 <= i < |guides| && fetch(Url(guides[i])).Some? :: DocPath(guides[i]);
    forall p | p in r ensures InDocs(p) {
      var i :| 0 <= i < |guides| && fetch(Url(guides[i])).Some? && p == DocPath(guides[i]);
      assert p == DOCS_DIR + "/" + guides[i].file;
    }
    r
  }

  /** The files after the download loop over `guides`, starting from `files`. */
  function Downloaded(files: map<string, string>, guides: seq<Guide>, fetch: string -> Option<string>)
    : map<string, string>
    decreases |guides|
  {
    if guides == [] then files
    else
      var g := guides[|guides| - 1];
      var before := Downloaded(files, guides[..|guides| - 1], fetch);
      match fetch(Url(g))
      case Some(body) => before[DocPath(g) := body]
      case None => before
  }

  /** The last guide of a non-empty list, and what it adds to the paths written. */
  lemma WrittenSnoc(guides: seq<Guide>, fetch: string -> Option<string>)
    requires guides != []
    ensures var g := guides[|guides| - 1];
      Written(guides, fetch) ==
        Written(guides[..|guides| - 1], fetch) + (if fetch(Url(g)).Some? then {DocPath(g)} else {})
  {
    var init := guides[..|guides| - 1];
    assert forall i :: 0 <= i < |init| ==> init[i] == guides[i];
  }

  /** The downloads create exactly the paths of the guides whose fetch succeeds. */
  lemma {:induction false} DownloadedKeys(files: map<string, string>, guides: seq<Guide>, fetch: string -> Option<string>)
    ensures Downloaded(files, guides, fetch).Keys == files.Keys + Written(guides, fetch)
    decreases |guides|
  {
    if guides != [] {
      DownloadedKeys(files, guides[..|guides| - 1], fetch);
      WrittenSnoc(guides, fetch);
    }
  }

  /** A file that no download writes keeps its content. */
  lemma {:induction false} DownloadedKeeps(files: map<string, string>, guides: seq<Guide>,
                                           fetch: string -> Option<string>, p: string)
    requires p in files && p !in Written(guides, fetch)
    ensures p in Downloaded(files, guides, fetch) && Downloaded(files, guides, fetch)[p] == files[p]
    decreases |guides|
  {
    if guides != [] {
      WrittenSnoc(guides, fetch);
      DownloadedKeeps(files, guides[..|guides| - 1], fetch, p);
    }
  }

  /** Each guide whose fetch succeeds is written, with the body fetched, to `ai-docs/<file>`. */
  lemma {:induction false} DownloadedWrites(files: map<string, string>, guides: seq<Guide>,
                                            fetch: string -> Option<string>, i: int)
    requires 0 <= i < |guides| && fetch(Url(guides[i])).Some?
    ensures DocPath(guides[i]) in Downloaded(files, guides, fetch)
    ensures Downloaded(files, guides, fetch)[DocPath(guides[i])] == fetch(Url(guides[i])).value
    decreases |guides|
  {
    var n := |guides| - 1;
    var g := guides[n];
    if i < n {
      assert guides[..n][i] == guides[i];
      DownloadedWrites(files, guides[..n], fetch, i);
      if DocPath(guides[i]) == DocPath(g) {
        DocPathFile(g);
        DocPathFile(guides[i]);
        assert Url(guides[i]) == Url(g);
      }
    }
  }

  /** One more guide: the files after the downloads of the first i guides, plus guide i's. */
  lemma DownloadedSnoc(files: map<string, string>, guides: seq<Guide>, fetch: string -> Option<string>, i: int)
    requires 0 <= i < |guides|
    ensures Downloaded(files, guides[..i + 1], fetch) ==
      match fetch(Url(guides[i]))
      case Some(body) => Downloaded(files, guides[..i], fetch)[DocPath(guides[i]) := body]
      case None => Downloaded(files, guides[..i], fetch)
  {
    assert guides[..i + 1][..i] == guides[..i];
  }

  /** The file name can be read back from the documentation path. */
  lemma DocPathFile(g: Guide)
    ensures DocPath(g)[|DOCS_DIR| + 1..] == g.file
  {
  }

  /** No catalog configuration lies in the documentation directory. */
  lemma CatalogOutsideDocs()
    ensures forall t :: t in TOOL_CONFIGS ==> !InDocs(t.file)
  {
    forall t | t in TOOL_CONFIGS ensures !InDocs(t.file) {
      assert t.file[0] != (DOCS_DIR + "/")[0];
    }
  }

  /**
   * The tools a run chooses have distinct configuration files outside the documentation
   * directory: the detected tools keep catalog order, and the menu picks at most one.
   */
  lemma {:induction false} ChosenToolsDistinct(existing: set<string>, answer: string)
    ensures var tools := SelectTools(DetectTools(existing), answer);
      forall j :: 0 <= j < |tools| ==> FirstFor(tools, j) && !InDocs(tools[j].file)
  {
    var detected := DetectTools(existing);
    var tools := SelectTools(detected, answer);
    ToolFilesUnique();
    CatalogOutsideDocs();
    if detected != [] && tools != [] {
      SubseqDistinctPaths(detected, TOOL_CONFIGS);
      assert tools == detected;
    }
    assert DistinctPaths(tools);
    forall j | 0 <= j < |tools| ensures FirstFor(tools, j) && !InDocs(tools[j].file) {
      assert tools[j] in tools;
      assert forall k :: 0 <= k < j ==> tools[k].file != tools[j].file;
    }
  }

  /** None of the first n tools has `p` as its configuration file. */
  predicate NotConfigured(tools: seq<Tool>, n: int, p: string)
    requires 0 <= n <= |tools|
  {
    forall k :: 0 <= k < n ==> tools[k].file != p
  }

  /** Tool j is the first of the list with its configuration file. */
  predicate FirstFor(tools: seq<Tool>, j: int)
    requires 0 <= j < |tools|
  {
    NotConfigured(tools, j, tools[j].file)
  }

  /** The content of `p` among the files `fs`, `None` when there is no such file. */
  function ContentOf(fs: map<string, string>, p: string): Option<string> {
    if p in fs then Some(fs[p]) else None
  }

  /** One report per handled tool, each naming that tool's configuration file. */
  predicate ReportsFor(tools: seq<Tool>, n: int, reports: seq<ToolReport>)
    requires 0 <= n <= |tools|
  {
    |reports| == n && forall j :: 0 <= j < n ==> reports[j].file == tools[j].file
  }

  /**
   * The report of the first tool of each configuration file lists what was appended to it;
   * a later tool with the same file reports no changes.
   */
  predicate ReportsExact(tools: seq<Tool>, selected: seq<Guide>, start: map<string, string>, n: int,
                         reports: seq<ToolReport>)
    requires 0 <= n <= |tools| && |reports| == n
  {
    forall j :: 0 <= j < n ==> reports[j].added == ExpectedAdded(tools, selected, start, j)
  }

  /** The guide names tool j's report lists, given the files `start` before the update loop. */
  function ExpectedAdded(tools: seq<Tool>, selected: seq<Guide>, start: map<string, string>, j: int): seq<string>
    requires 0 <= j < |tools|
  {
    if FirstFor(tools, j) then Names(Appended(tools[j], ContentOf(start, tools[j].file), selected)) else []
  }

  /** Each of the first n configuration files holds what the update loop makes of its content in `start`. */
  predicate ContentsExact(tools: seq<Tool>, selected: seq<Guide>, start: map<string, string>,
                          fs: map<string, string>, n: int)
    requires 0 <= n <= |tools|
  {
    forall j :: 0 <= j < n && FirstFor(tools, j) ==>
      ContentOf(fs, tools[j].file) == Updated(tools[j], ContentOf(start, tools[j].file), selected)
  }

  /** The directories `UpdateConfig` may create for tool t: its configuration's directory and those above it. */
  function MadeDirs(t: Tool): set<string> {
    var d := Dirname(t.file);
    if d != "." then Ancestry(d) else {}
  }

  /** The directories the update loop may create for the first n tools. */
  function ConfigDirs(tools: seq<Tool>, n: int): set<string>
    requires 0 <= n <= |tools|
    decreases n
  {
    if n == 0 then {} else ConfigDirs(tools, n - 1) + MadeDirs(tools[n - 1])
  }

  /** The directory of each of the first n configuration files exists, as a directory or a file. */
  predicate DirsExist(tools: seq<Tool>, n: int, fs: map<string, string>, ds: set<string>)
    requires 0 <= n <= |tools|
  {
    forall j :: 0 <= j < n && Dirname(tools[j].file) != "." ==>
      Dirname(tools[j].file) in fs || Dirname(tools[j].file) in ds
  }

  /** The configuration of each of the first n tools references every selected guide. */
  predicate ReferencesAll(tools: seq<Tool>, selected: seq<Guide>, fs: map<string, string>, n: int)
    requires 0 <= n <= |tools|
  {
    forall j, g :: 0 <= j < n && g in selected ==> Referenced(ContentOf(fs, tools[j].file), g)
  }

  /** Every file of `start` is still there and starts with its old content. */
  ghost predicate OnlyGrown(start: map<string, string>, fs: map<string, string>) {
    forall p :: ContentOf(start, p).Some? ==>
      ContentOf(fs, p).Some? && Text(ContentOf(start, p)) <= Text(ContentOf(fs, p))
  }

  /** A file that is none of the first n tools' configuration is as it was. */
  ghost predicate UntouchedOutside(tools: seq<Tool>, n: int, start: map<string, string>, fs: map<string, string>)
    requires 0 <= n <= |tools|
  {
    forall p :: NotConfigured(tools, n, p) ==> ContentOf(fs, p) == ContentOf(start, p)
  }

  /** Updating one configuration file, as `UpdateConfig` does: that file is updated, no other changes. */
  ghost predicate UpdateStep(t: Tool, selected: seq<Guide>, fs: map<string, string>, fs': map<string, string>) {
    && ContentOf(fs', t.file) == Updated(t, ContentOf(fs, t.file), selected)
    && forall p :: p != t.file ==> ContentOf(fs', p) == ContentOf(fs, p)
  }

  /** The step keeps every earlier configuration referencing the selection, and adds tool n's. */
  lemma ReferencesAllNext(tools: seq<Tool>, selected: seq<Guide>, fs: map<string, string>,
                          fs': map<string, string>, n: int)
    requires 0 <= n < |tools|
    requires ReferencesAll(tools, selected, fs, n) && UpdateStep(tools[n], selected, fs, fs')
    ensures ReferencesAll(tools, selected, fs', n + 1)
  {
    var tool := tools[n];
    var before := ContentOf(fs, tool.file);
    UpdatedReferencesAll(tool, before, selected);
    forall j, g | 0 <= j < n + 1 && g in selected ensures Referenced(ContentOf(fs', tools[j].file), g) {
      if j < n && tools[j].file == tool.file {
        UpdatedKeepsReferenced(tool, before, selected, g);
      }
    }
  }

  /** The step only appends. */
  lemma OnlyGrownNext(t: Tool, selected: seq<Guide>, start: map<string, string>,
                      fs: map<string, string>, fs': map<string, string>)
    requires OnlyGrown(start, fs) && UpdateStep(t, selected, fs, fs')
    ensures OnlyGrown(start, fs')
  {
    UpdatedKeepsContent(t, ContentOf(fs, t.file), selected);
  }

  /** The step touches only tool n's configuration. */
  lemma UntouchedOutsideNext(tools: seq<Tool>, selected: seq<Guide>, start: map<string, string>,
                             fs: map<string, string>, fs': map<string, string>, n: int)
    requires 0 <= n < |tools|
    requires UntouchedOutside(tools, n, start, fs) && UpdateStep(tools[n], selected, fs, fs')
    ensures UntouchedOutside(tools, n + 1, start, fs')
  {
    forall p | NotConfigured(tools, n + 1, p) ensures ContentOf(fs', p) == ContentOf(start, p) {
      assert NotConfigured(tools, n, p);
    }
  }

  /**
   * The step's report is exact: what was appended when tool n is the first with its
   * configuration file, and nothing when an earlier tool already completed that file.
   */
  lemma ReportsExactNext(tools: seq<Tool>, selected: seq<Guide>, start: map<string, string>,
                         fs: map<string, string>, n: int, reports: seq<ToolReport>, added: seq<string>)
    requires 0 <= n < |tools| && |reports| == n
    requires ReportsExact(tools, selected, start, n, reports) && UntouchedOutside(tools, n, start, fs)
    requires ReferencesAll(tools, selected, fs, n)
    requires added == Names(Appended(tools[n], ContentOf(fs, tools[n].file), selected))
    ensures ReportsExact(tools, selected, start, n + 1, reports + [ToolReport(tools[n].file, added)])
  {
    var next := reports + [ToolReport(tools[n].file, added)];
    var first := FirstFor(tools, n);
    if first {
      assert ContentOf(fs, tools[n].file) == ContentOf(start, tools[n].file);
    } else {
      var k :| 0 <= k < n && tools[k].file == tools[n].file;
      AlreadyComplete(tools, selected, fs, n, k);
    }
    assert next[n].added == ExpectedAdded(tools, selected, start, n);
    forall j | 0 <= j < n + 1 ensures next[j].added == ExpectedAdded(tools, selected, start, j) {
      if j < n {
        assert next[j] == reports[j];
      }
    }
  }

  /** When an earlier tool k shares tool n's configuration, the file already references every guide and the step adds nothing. */
  lemma AlreadyComplete(tools: seq<Tool>, selected: seq<Guide>, fs: map<string, string>, n: int, k: int)
    requires 0 <= k < n < |tools| && tools[k].file == tools[n].file
    requires ReferencesAll(tools, selected, fs, n)
    ensures Appended(tools[n], ContentOf(fs, tools[n].file), selected) == []
    ensures Updated(tools[n], ContentOf(fs, tools[n].file), selected) == ContentOf(fs, tools[n].file)
  {
    var content := ContentOf(fs, tools[n].file);
    forall g | g in selected ensures Referenced(content, g) {
      assert Referenced(ContentOf(fs, tools[k].file), g);
    }
    NothingAppendedIff(tools[n], content, selected);
    UpdatedWhenAllReferenced(tools[n], content, selected);
  }

  /** The step pins tool n's configuration when it is the first with that file, and keeps the earlier ones. */
  lemma ContentsExactNext(tools: seq<Tool>, selected: seq<Guide>, start: map<string, string>,
                          fs: map<string, string>, fs': map<string, string>, n: int)
    requires 0 <= n < |tools|
    requires ContentsExact(tools, selected, start, fs, n) && ReferencesAll(tools, selected, fs, n)
    requires UntouchedOutside(tools, n, start, fs) && UpdateStep(tools[n], selected, fs, fs')
    ensures ContentsExact(tools, selected, start, fs', n + 1)
  {
    var tool := tools[n];
    var content := ContentOf(fs, tool.file);
    forall j | 0 <= j < n + 1 && FirstFor(tools, j)
      ensures ContentOf(fs', tools[j].file) == Updated(tools[j], ContentOf(start, tools[j].file), selected)
    {
      if j == n {
        assert NotConfigured(tools, n, tool.file);
      } else if tools[j].file == tool.file {
        AlreadyComplete(tools, selected, fs, n, j);
      }
    }
  }

  /**
   * The directories after `UpdateConfig` for tool t: its configuration's directory and those
   * above it are added when that directory is not "." and does not exist, as file or directory.
   */
  predicate MkdirStep(t: Tool, fs: map<string, string>, ds: set<string>, ds': set<string>) {
    var d := Dirname(t.file);
    ds' == if d != "." && !(d in fs || d in ds) then ds + Ancestry(d) else ds
  }

  /** The directories stay between `startDirs` and those the first n tools may add, and each of their directories exists. */
  predicate DirsProgress(tools: seq<Tool>, startDirs: set<string>, fs: map<string, string>, ds: set<string>, n: int)
    requires 0 <= n <= |tools|
  {
    startDirs <= ds <= startDirs + ConfigDirs(tools, n) && DirsExist(tools, n, fs, ds)
  }

  /**
   * The directories after `UpdateConfig` for tool n: the only new ones are tool n's
   * configuration directory and those above it, and that directory exists afterwards
   * while the earlier tools' directories still do.
   */
  lemma DirsProgressNext(tools: seq<Tool>, selected: seq<Guide>, startDirs: set<string>,
                         fs: map<string, string>, fs': map<string, string>, ds: set<string>, ds': set<string>, n: int)
    requires 0 <= n < |tools|
    requires DirsProgress(tools, startDirs, fs, ds, n) && UpdateStep(tools[n], selected, fs, fs')
    requires MkdirStep(tools[n], fs, ds, ds')
    ensures DirsProgress(tools, startDirs, fs', ds', n + 1)
  {
    var tool := tools[n];
    assert ds' <= ds + MadeDirs(tool);
    UpdatedKeepsContent(tool, ContentOf(fs, tool.file), selected);
    forall j | 0 <= j < n + 1 && Dirname(tools[j].file) != "."
      ensures Dirname(tools[j].file) in fs' || Dirname(tools[j].file) in ds'
    {
      var d := Dirname(tools[j].file);
      if d in fs && d != tool.file {
        assert ContentOf(fs', d) == ContentOf(fs, d);
      }
    }
  }

  /**
   * What the update loop has achieved on the files after the first n tools, from the files
   * `start` to the files `fs`, with `reports` collected.
   */
  ghost predicate FilesProgress(tools: seq<Tool>, selected: seq<Guide>, start: map<string, string>,
                                fs: map<string, string>, n: int, reports: seq<ToolReport>)
    requires 0 <= n <= |tools|
  {
    && ReportsFor(tools, n, reports) && ReportsExact(tools, selected, start, n, reports)
    && ContentsExact(tools, selected, start, fs, n) && ReferencesAll(tools, selected, fs, n)
    && OnlyGrown(start, fs) && UntouchedOutside(tools, n, start, fs)
  }

  /** One pass of the update loop keeps everything the loop has achieved, now for n + 1 tools. */
  lemma UpdateConfigsNext(tools: seq<Tool>, selected: seq<Guide>, start: map<string, string>,
                          fs: map<string, string>, fs': map<string, string>, n: int,
                          reports: seq<ToolReport>, added: seq<string>)
    requires 0 <= n < |tools|
    requires FilesProgress(tools, selected, start, fs, n, reports)
    requires UpdateStep(tools[n], selected, fs, fs')
    requires added == Names(Appended(tools[n], ContentOf(fs, tools[n].file), selected))
    ensures FilesProgress(tools, selected, start, fs', n + 1, reports + [ToolReport(tools[n].file, added)])
  {
    var next := reports + [ToolReport(tools[n].file, added)];
    assert ReportsFor(tools, n + 1, next) by {
      assert forall j :: 0 <= j < n ==> next[j] == reports[j];
    }
    ReferencesAllNext(tools, selected, fs, fs', n);
    OnlyGrownNext(tools[n], selected, start, fs, fs');
    UntouchedOutsideNext(tools, selected, start, fs, fs', n);
    ReportsExactNext(tools, selected, start, fs, n, reports, added);
    ContentsExactNext(tools, selected, start, fs, fs', n);
  }

  /** What the run reports for one tool; an empty `added` is the "no changes" message. */
  datatype ToolReport = ToolReport(file: string, added: seq<string>)

  /** How a run ends: early when no valid guide was chosen, otherwise after both loops. */
  datatype Outcome =
    | NoGuidesSelected
    | Finished(tools: seq<Tool>, guides: seq<Guide>, fetched: seq<bool>, reports: seq<ToolReport>)

  /** The working directory: file contents by path, and the directories that exist. */
  class FileSystem {
    var files: map<string, string>
    var dirs: set<string>

    constructor (files: map<string, string>, dirs: set<string>)
      ensures this.files == files && this.dirs == dirs
    {
      this.files := files;
      this.dirs := dirs;
    }

    /** `fs.existsSync(path)`. */
    function Exists(path: string): bool
      reads this
    {
      path in files || path in dirs
    }

    /** The content of a file, `None` when there is no such file. */
    function Content(path: string): Option<string>
      reads this
    {
      ContentOf(files, path)
    }

    /** `alreadyReferenced(configFile, guide)`: false for a missing file, else a containment test. */
    function AlreadyReferenced(configFile: string, g: Guide): (b: bool)
      reads this
      ensures b <==> configFile in files && exists i :: OccursAt(files[configFile], g.file, i)
    {
      if configFile !in files then false
      else
        IncludesIff(files[configFile], g.file);
        Includes(files[configFile], g.file)
    }

    /** `fs.appendFileSync(path, text)`: adds text at the end, creating the file if needed. */
    method AppendFile(path: string, text: string)
      modifies this
      ensures Content(path) == AppendTo(old(Content(path)), text)
      ensures forall p :: p != path ==> Content(p) == old(Content(p))
      ensures files == old(files)[path := Text(old(Content(path))) + text] && dirs == old(dirs)
    {
      files := files[path := Text(Content(path)) + text];
    }

    /** `fs.writeFileSync(path, text)`: replaces the file's content. */
    method WriteFile(path: string, text: string)
      modifies this
      ensures files == old(files)[path := text] && dirs == old(dirs)
    {
      files := files[path := text];
    }

    /** `fs.mkdirSync(path)` or, with `recursive`, the directory and all those above it. */
    method Mkdir(path: string, recursive: bool)
      modifies this
      ensures dirs == old(dirs) + (if recursive then Ancestry(path) else {path})
      ensures files == old(files)
    {
      dirs := dirs + if recursive then Ancestry(path) else {path};
    }

    /**
     * One pass of the update loop for one tool: create the configuration's directory if
     * needed, then append the snippets of the selected guides it does not mention yet.
     */
    method UpdateConfig(tool: Tool, selected: seq<Guide>) returns (added: seq<string>)
      modifies this
      ensures UpdateStep(tool, selected, old(files), files)
      ensures added == Names(Appended(tool, ContentOf(old(files), tool.file), selected))
      ensures MkdirStep(tool, old(files), old(dirs), dirs)
    {
      var dir := Dirname(tool.file);
      if dir != "." && !Exists(dir) {
        Mkdir(dir, true);
      }
      ghost var before := files;
      label Before:
      added := AppendMissing(tool, selected);
      forall p | p != tool.file ensures ContentOf(files, p) == ContentOf(before, p) {
        assert Content(p) == old@Before(Content(p));
      }
    }

    /**
     * For each selected guide in turn, append the tool's snippet unless the configuration
     * already mentions the guide's file name, collecting the names of the guides appended.
     */
    method AppendMissing(tool: Tool, selected: seq<Guide>) returns (added: seq<string>)
      modifies this
      ensures Content(tool.file) == Updated(tool, old(Content(tool.file)), selected)
      ensures forall p :: p != tool.file ==> Content(p) == old(Content(p))
      ensures added == Names(Appended(tool, old(Content(tool.file)), selected))
      ensures dirs == old(dirs)
    {
      ghost var start := Content(tool.file);
      ghost var appended: seq<Guide> := [];
      added := [];
      var i := 0;
      while i < |selected|
        invariant 0 <= i <= |selected|
        invariant LoopAt(tool, start, selected, i, Content(tool.file), appended)
        invariant added == Names(appended)
        invariant files - {tool.file} == old(files) - {tool.file}
        invariant dirs == old(dirs)
      {
        var guide := selected[i];
        ghost var before := Content(tool.file);
        UpdateLoopStep(tool, start, selected, i, before, appended);
        if !AlreadyReferenced(tool.file, guide) {
          AppendFile(tool.file, Ref(tool, guide));
          NamesSnoc(appended, guide);
          added := added + [guide.name];
          appended := appended + [guide];
        }
        assert Content(tool.file) == Step(tool, before, guide);
        i := i + 1;
      }
      forall p | p != tool.file ensures Content(p) == old(Content(p)) {
        assert p in files <==> p in files - {tool.file};
        assert p in old(files) <==> p in old(files) - {tool.file};
      }
    }

    /**
     * The update loop over the chosen tools. Each chosen configuration ends up as `Updated`
     * makes its old content, and so references every selected guide; the first report for a
     * configuration lists exactly the guides appended to it, a later one for the same file
     * reports no changes. Every file only grows, no other file changes, and the only new
     * directories are those of the chosen configurations and the directories above them.
     */
    method UpdateConfigs(tools: seq<Tool>, selected: seq<Guide>) returns (reports: seq<ToolReport>)
      modifies this
      ensures ReportsFor(tools, |tools|, reports)
      ensures ReportsExact(tools, selected, old(files), |tools|, reports)
      ensures ContentsExact(tools, selected, old(files), files, |tools|)
      ensures ReferencesAll(tools, selected, files, |tools|)
      ensures OnlyGrown(old(files), files)
      ensures UntouchedOutside(tools, |tools|, old(files), files)
      ensures old(dirs) <= dirs <= old(dirs) + ConfigDirs(tools, |tools|)
      ensures DirsExist(tools, |tools|, files, dirs)
    {
      reports := [];
      var i := 0;
      while i < |tools|
        invariant 0 <= i <= |tools|
        invariant FilesProgress(tools, selected, old(files), files, i, reports)
        invariant DirsProgress(tools, old(dirs), files, dirs, i)
      {
        var tool := tools[i];
        ghost var before := files;
        ghost var dirsBefore := dirs;
        var added := UpdateConfig(tool, selected);
        DirsProgressNext(tools, selected, old(dirs), before, files, dirsBefore, dirs, i);
        UpdateConfigsNext(tools, selected, old(files), before, files, i, reports, added);
        reports := reports + [ToolReport(tool.file, added)];
        i := i + 1;
      }
    }

    /** The download loop: fetch each selected guide in turn and write what succeeded. */
    method DownloadGuides(selected: seq<Guide>, fetch: string -> Option<string>) returns (fetched: seq<bool>)
      modifies this
      ensures files == Downloaded(old(files), selected, fetch) && dirs == old(dirs)
      ensures |fetched| == |selected|
      ensures forall i :: 0 <= i < |selected| ==> fetched[i] == fetch(Url(selected[i])).Some?
    {
      fetched := [];
      var i := 0;
      while i < |selected|
        invariant 0 <= i <= |selected| && |fetched| == i
        invariant files == Downloaded(old(files), selected[..i], fetch) && dirs == old(dirs)
        invariant forall j :: 0 <= j < i ==> fetched[j] == fetch(Url(selected[j])).Some?
      {
        var guide := selected[i];
        DownloadedSnoc(old(files), selected, fetch, i);
        match fetch(Url(guide)) {
          case Some(body) =>
            WriteFile(DocPath(guide), body);
            fetched := fetched + [true];
          case None =>
            fetched := fetched + [false];
        }
        i := i + 1;
      }
      assert selected[..i] == selected;
    }

    /**
     * The part of `main` after the selection: create the documentation directory if it is
     * missing, download the guides, then update the chosen configurations. Every guide whose
     * fetch succeeded is in the documentation directory (unless a chosen configuration shares
     * its path). Every file that no successful download writes, inside that directory or not,
     * only grows, and only the chosen configurations among them change.
     */
    method Install(tools: seq<Tool>, guides: seq<Guide>, fetch: string -> Option<string>)
      returns (fetched: seq<bool>, reports: seq<ToolReport>)
      modifies this
      ensures |fetched| == |guides| && forall i :: 0 <= i < |guides| ==> fetched[i] == fetch(Url(guides[i])).Some?
      ensures ReportsFor(tools, |tools|, reports)
      ensures forall i :: 0 <= i < |guides| && fetch(Url(guides[i])).Some? && NotConfigured(tools, |tools|, DocPath(guides[i])) ==>
        Content(DocPath(guides[i])) == fetch(Url(guides[i]))
      ensures Exists(DOCS_DIR)
      ensures forall j, g :: 0 <= j < |tools| && g in guides ==> Referenced(Content(tools[j].file), g)
      ensures forall p :: p !in Written(guides, fetch) && old(Content(p)).Some? ==>
        Content(p).Some? && Text(old(Content(p))) <= Text(Content(p))
      ensures forall p :: p !in Written(guides, fetch) && NotConfigured(tools, |tools|, p) ==> Content(p) == old(Content(p))
      ensures forall j :: 0 <= j < |tools| && FirstFor(tools, j) && !InDocs(tools[j].file) ==>
        && Content(tools[j].file) == Updated(tools[j], old(Content(tools[j].file)), guides)
        && reports[j].added == Names(Appended(tools[j], old(Content(tools[j].file)), guides))
      ensures forall j :: 0 <= j < |tools| && !FirstFor(tools, j) ==> reports[j].added == []
      ensures old(dirs) <= dirs <= old(dirs) + {DOCS_DIR} + ConfigDirs(tools, |tools|)
      ensures forall j :: 0 <= j < |tools| && Dirname(tools[j].file) != "." ==> Exists(Dirname(tools[j].file))
    {
      if !Exists(DOCS_DIR) {
        Mkdir(DOCS_DIR, false);
      }
      ghost var start := files;
      fetched := DownloadGuides(guides, fetch);
      DownloadedKeys(start, guides, fetch);
      forall p | p in start && p !in Written(guides, fetch) ensures files[p] == start[p] {
        DownloadedKeeps(start, guides, fetch, p);
      }
      assert forall p :: p !in Written(guides, fetch) ==> Content(p) == old(Content(p));
      forall i | 0 <= i < |guides| && fetch(Url(guides[i])).Some?
        ensures Content(DocPath(guides[i])) == fetch(Url(guides[i]))
      {
        DownloadedWrites(start, guides, fetch, i);
      }
      ghost var docsBefore := Content(DOCS_DIR);
      assert DOCS_DIR in dirs || docsBefore.Some?;
      reports := UpdateConfigs(tools, guides);
      assert DOCS_DIR in dirs || Content(DOCS_DIR).Some?;
    }

    /**
     * `main`: detect the tools, read the tool answer and the guide answer (each line trimmed),
     * stop if no valid guide was chosen, otherwise install the guides.
     */
    method Setup(toolLine: string, guideLine: string, fetch: string -> Option<string>) returns (outcome: Outcome)
      modifies this
      ensures var tools := SelectTools(DetectTools(old(files.Keys) + old(dirs)), Trim(toolLine));
        var guides := GuideChoice(Trim(guideLine));
        if guides == [] then
          outcome == NoGuidesSelected && files == old(files) && dirs == old(dirs)
        else
          outcome.Finished? && outcome.tools == tools && outcome.guides == guides
          && |outcome.fetched| == |guides|
          && (forall i :: 0 <= i < |guides| ==> outcome.fetched[i] == fetch(Url(guides[i])).Some?)
          && |outcome.reports| == |tools|
          && (forall j :: 0 <= j < |tools| ==>
                && Content(tools[j].file) == Updated(tools[j], old(Content(tools[j].file)), guides)
                && outcome.reports[j] == ToolReport(tools[j].file, Names(Appended(tools[j], old(Content(tools[j].file)), guides))))
          && (forall i :: 0 <= i < |guides| && fetch(Url(guides[i])).Some? ==>
                Content(DocPath(guides[i])) == fetch(Url(guides[i])))
          && Exists(DOCS_DIR)
          && (forall j, g :: 0 <= j < |tools| && g in guides ==> Referenced(Content(tools[j].file), g))
          && (forall p :: p !in Written(guides, fetch) && old(Content(p)).Some? ==>
                Content(p).Some? && Text(old(Content(p))) <= Text(Content(p)))
          && (forall p :: p !in Written(guides, fetch) && NotConfigured(tools, |tools|, p) ==> Content(p) == old(Content(p)))
          && old(dirs) <= dirs <= old(dirs) + {DOCS_DIR} + ConfigDirs(tools, |tools|)
          && (forall j :: 0 <= j < |tools| && Dirname(tools[j].file) != "." ==> Exists(Dirname(tools[j].file)))
    {
      var detected := DetectTools(files.Keys + dirs);
      var tools := SelectTools(detected, Trim(toolLine));
      var guides := GuideChoice(Trim(guideLine));
      if guides == [] {
        return NoGuidesSelected;
      }
      ChosenToolsDistinct(files.Keys + dirs, Trim(toolLine));
      forall i | 0 <= i < |guides| ensures NotConfigured(tools, |tools|, DocPath(guides[i])) {
        assert InDocs(DocPath(guides[i])) by {
          assert DocPath(guides[i]) == DOCS_DIR + "/" + guides[i].file;
        }
      }
      var fetched, reports := Install(tools, guides, fetch);
      outcome := Finished(tools, guides, fetched, reports);
    }
  }
}
