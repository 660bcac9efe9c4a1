/**
 * The two static catalogs of bin/init.js (the guides that can be downloaded and the AI tools
 * whose configuration files can reference them), the per-tool reference templates, and the
 * detection of the tools present in the working directory.
 */
module Catalog {
  import opened StringOps

  /** One downloadable guide: display name, file name (remote and local), description, topic. */
  datatype Guide = Guide(name: string, file: string, desc: string, topic: string)

  /**
   * How a tool's reference snippet is laid out: a single "Read ..." sentence, or a heading
   * (`#` or `##` followed by the guide's name) over a "Refer to ..." sentence.
   */
  datatype RefStyle = ReadSentence | Heading(marker: string)

  /** One supported AI tool: display name, configuration file path, snippet layout. */
  datatype Tool = Tool(name: string, file: string, style: RefStyle)

  /** The local documentation directory. */
  const DOCS_DIR: string := "ai-docs"

  const GUIDES: seq<Guide> := [
    Guide("SEO & LLMO Implementation", "seo-llmo-guide.md",
          "Structured data, llms.txt, AI crawlers, Core Web Vitals", "SEO/LLMO practices"),
    Guide("Deploying a Static SPA on AWS", "aws-spa-deployment-guide.md",
          "Amplify, CDK, Lambda, API Gateway, SES, CORS", "AWS SPA deployment"),
    Guide("Google Analytics 4", "google-analytics-guide.md",
          "Events, e-commerce, Consent Mode v2, SPA tracking", "Google Analytics 4 implementation"),
    Guide("Web Accessibility", "web-accessibility-guide.md",
          "WCAG 2.2 AA, ARIA, keyboard navigation, testing", "web accessibility (WCAG 2.2)")
  ]

  const TOOL_CONFIGS: seq<Tool> := [
    Tool("Claude Code", "CLAUDE.md", ReadSentence),
    Tool("Cursor", ".cursorrules", Heading("#")),
    Tool("GitHub Copilot", ".github/copilot-instructions.md", Heading("##")),
    Tool("Windsurf", ".windsurfrules", Heading("#"))
  ]

  /** The documentation-directory-relative path of a guide, as the snippets spell it. */
  function DocPath(g: Guide): string {
    DOCS_DIR + "/" + g.file
  }

  /** `tool.ref(guide)`: the snippet appended to the tool's configuration file. */
  function Ref(t: Tool, g: Guide): string {
    match t.style
    case ReadSentence => "\nRead " + DocPath(g) + " for " + g.topic + ".\n"
    case Heading(marker) =>
      "\n" + marker + " " + g.name + "\nRefer to " + DocPath(g) + " for " + g.topic + " guidance.\n"
  }

  /**
   * Every snippet starts and ends with a line break and mentions `ai-docs/<file>`, hence the
   * guide's file name, which is what the already-referenced check looks for.
   */
  lemma RefShape(t: Tool, g: Guide)
    ensures |Ref(t, g)| >= 2 && Ref(t, g)[0] == '\n' && Ref(t, g)[|Ref(t, g)| - 1] == '\n'
    ensures Includes(Ref(t, g), DocPath(g))
    ensures Includes(Ref(t, g), g.file)
  {
    var r := Ref(t, g);
    match t.style {
      case ReadSentence =>
        assert r == "\nRead " + DocPath(g) + (" for " + g.topic + ".\n");
        IncludesMiddle("\nRead ", DocPath(g), " for " + g.topic + ".\n");
        assert r == ("\nRead " + DOCS_DIR + "/") + g.file + (" for " + g.topic + ".\n");
        IncludesMiddle("\nRead " + DOCS_DIR + "/", g.file, " for " + g.topic + ".\n");
      case Heading(marker) =>
        var pre := "\n" + marker + " " + g.name + "\nRefer to ";
        var post := " for " + g.topic + " guidance.\n";
        assert r == pre + DocPath(g) + post;
        IncludesMiddle(pre, DocPath(g), post);
        assert r == (pre + DOCS_DIR + "/") + g.file + post;
        IncludesMiddle(pre + DOCS_DIR + "/", g.file, post);
    }
  }

  /** No two guides of the catalog share a file name, so the file name identifies a guide. */
  lemma GuideFilesUnique()
    ensures forall i, j :: 0 <= i < j < |GUIDES| ==> GUIDES[i].file != GUIDES[j].file
  {
    assert GUIDES[0].file[0] == 's' && GUIDES[1].file[0] == 'a';
    assert GUIDES[2].file[0] == 'g' && GUIDES[3].file[0] == 'w';
  }

  /** No two of the tools share a configuration path. */
  predicate DistinctPaths(tools: seq<Tool>) {
    forall i, j :: 0 <= i < j < |tools| ==> tools[i].file != tools[j].file
  }

  /** No two tools of the catalog share a configuration path. */
  lemma ToolFilesUnique()
    ensures DistinctPaths(TOOL_CONFIGS)
  {
    assert TOOL_CONFIGS[0].file[0] == 'C';
    assert TOOL_CONFIGS[1].file[1] == 'c' && TOOL_CONFIGS[2].file[1] == 'g';
    assert TOOL_CONFIGS[3].file[1] == 'w';
  }

  /** `a` is `b` with some elements left out and the rest kept in order. */
  predicate Subseq<T(==)>(a: seq<T>, b: seq<T>)
    decreases |b|
  {
    if a == [] then true
    else if b == [] then false
    else (a[0] == b[0] && Subseq(a[1..], b[1..])) || Subseq(a, b[1..])
  }

  /** Every element of a subsequence is an element of the sequence. */
  lemma {:induction false} SubseqMembers<T>(a: seq<T>, b: seq<T>)
    requires Subseq(a, b)
    ensures forall x :: x in a ==> x in b
    decreases |b|
  {
    if a != [] {
      if a[0] == b[0] && Subseq(a[1..], b[1..]) {
        SubseqMembers(a[1..], b[1..]);
        assert forall x :: x in a ==> x == a[0] || x in a[1..];
      } else {
        SubseqMembers(a, b[1..]);
      }
      assert forall x :: x in b[1..] ==> x in b;
    }
  }

  /** Leaving tools out of a list with distinct paths keeps the paths distinct. */
  lemma {:induction false} SubseqDistinctPaths(a: seq<Tool>, b: seq<Tool>)
    requires Subseq(a, b) && DistinctPaths(b)
    ensures DistinctPaths(a)
    decreases |b|
  {
    if a != [] {
      assert DistinctPaths(b[1..]) by {
        forall i, j | 0 <= i < j < |b[1..]| ensures b[1..][i].file != b[1..][j].file {
          assert b[1..][i] == b[i + 1] && b[1..][j] == b[j + 1];
        }
      }
      if a[0] == b[0] && Subseq(a[1..], b[1..]) {
        SubseqDistinctPaths(a[1..], b[1..]);
        SubseqMembers(a[1..], b[1..]);
        forall i, j | 0 <= i < j < |a| ensures a[i].file != a[j].file {
          if i == 0 {
            assert a[j] == a[1..][j - 1] && a[j] in a[1..];
            var k :| 0 <= k < |b[1..]| && b[1..][k] == a[j];
            assert b[k + 1] == a[j];
          } else {
            assert a[i] == a[1..][i - 1] && a[j] == a[1..][j - 1];
          }
        }
      } else {
        SubseqDistinctPaths(a, b[1..]);
      }
    }
  }

  /** `tools.filter(t => exists(t.file))` over a set of existing paths. */
  function DetectAmong(tools: seq<Tool>, existing: set<string>): (r: seq<Tool>)
    ensures forall t :: t in r <==> t in tools && t.file in existing
    ensures Subseq(r, tools)
    decreases |tools|
  {
    if tools == [] then []
    else if tools[0].file in existing then [tools[0]] + DetectAmong(tools[1..], existing)
    else DetectAmong(tools[1..], existing)
  }

  /** `detectTools()`: the catalog's tools whose configuration file exists, in catalog order. */
  function DetectTools(existing: set<string>): (r: seq<Tool>)
    ensures forall t :: t in r <==> t in TOOL_CONFIGS && t.file in existing
    ensures Subseq(r, TOOL_CONFIGS)
  {
    DetectAmong(TOOL_CONFIGS, existing)
  }
}
