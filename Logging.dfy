/**
 * The logger of src/Logger.ts. Console output is kept as a sequence of
 * lines; a line is its level (the `[WARN]`, `[ERROR]`, `[INFO]` tag, or
 * none) and the message the caller passed, as a tagged value rather than
 * coloured text.
 */
module Logging {
  import opened Ordered

  /** The tag a line is printed with: `[WARN]`, `[ERROR]`, `[INFO]` (lines 15, 25, 35), or none. */
  datatype Level = WarnTag | ErrorTag | InfoTag | NoTag

  /** The messages the visitors pass to the logger, one variant per message shape. */
  datatype Msg =
    | Blank                                       // `empty()`
    | Item(text: string)                          // `log('-', text)`: one entry of a list
    // DiffVisitor
    | PackageRemoved(name: string)                // `- name`
    | PackageName(name: string)                   // the header of a package block
    | VersionRemoved(version: string)             // `- version`
    | VersionAdded(version: string, url: string)  // `+ version [url]`
    | UrlRemoved(version: string, url: string)    // `- version [url]` (version in both)
    | UrlAdded(version: string, url: string)      // `+ version [url]` (version in both)
    // GitDiffVisitor
    | NewPackages(names: seq<string>)
    | RemovedPackages(names: seq<string>)
    | PackageChanged(name: string)
    | NewVersion(version: string)
    | OldVersion(version: string)
    | UrlChange(version: string)
    | UrlNew(url: string)
    | UrlGone(url: string)
    // DuplicateVersionsVisitor
    | MultipleUrls(name: string, version: string)
    // RegistryInconsistencyVisitor
    | RegistriesUsed
    | MultipleRegistries
    // InsecureUriVisitor
    | InsecureUrl(name: string)

  /** One console line. */
  datatype Line = Line(level: Level, msg: Msg)

  /** The number of lines printed at level `l`. */
  function CountLevel(lines: seq<Line>, l: Level): nat {
    if lines == [] then 0
    else CountLevel(lines[..|lines| - 1], l) + (if lines[|lines| - 1].level == l then 1 else 0)
  }

  /** Appending one line adds one to its own level's count and nothing to the others. */
  lemma CountLevelSnoc(lines: seq<Line>, line: Line, l: Level)
    ensures CountLevel(lines + [line], l) == CountLevel(lines, l) + (if line.level == l then 1 else 0)
  {
    assert (lines + [line])[..|lines|] == lines;
  }

  /** `log('-', x)` for each `x`, in order: a listed item per line. */
  function Items(s: seq<string>): seq<Line> {
    seq(|s|, i requires 0 <= i < |s| => Line(NoTag, Item(s[i])))
  }

  /** Listing distinct entries names each once, and nothing else. */
  lemma ItemsOnce(s: seq<string>)
    requires Distinct(s)
    ensures Distinct(Items(s))
    ensures forall x :: Line(NoTag, Item(x)) in Items(s) <==> x in s
  {
    forall x | x in s ensures Line(NoTag, Item(x)) in Items(s) {
      var i :| 0 <= i < |s| && s[i] == x;
      assert Items(s)[i] == Line(NoTag, Item(x));
    }
  }

  /** `Logger`: the `warnings` and `errors` counters and what was written. */
  class Logger {
    var warnings: nat
    var errors: nat
    var out: seq<Line>

    /** The counters count the `[WARN]` and `[ERROR]` lines written. */
    ghost predicate Counted()
      reads this
    {
      warnings == CountLevel(out, WarnTag) && errors == CountLevel(out, ErrorTag)
    }

    /** A fresh logger has written nothing and counted nothing (lines 7-8). */
    constructor ()
      ensures warnings == 0 && errors == 0 && out == []
      ensures Counted()
    {
      warnings, errors, out := 0, 0, [];
    }

    /** `warn` (lines 14-18): one `[WARN]` line and one more warning; errors unchanged. */
    method Warn(m: Msg)
      modifies this
      ensures out == old(out) + [Line(WarnTag, m)]
      ensures warnings == old(warnings) + 1 && errors == old(errors)
      ensures old(Counted()) ==> Counted()
    {
      CountLevelSnoc(out, Line(WarnTag, m), WarnTag);
      CountLevelSnoc(out, Line(WarnTag, m), ErrorTag);
      out := out + [Line(WarnTag, m)];
      warnings := warnings + 1;
    }

    /** `error` (lines 24-28): one `[ERROR]` line and one more error; warnings unchanged. */
    method Error(m: Msg)
      modifies this
      ensures out == old(out) + [Line(ErrorTag, m)]
      ensures errors == old(errors) + 1 && warnings == old(warnings)
      ensures old(Counted()) ==> Counted()
    {
      CountLevelSnoc(out, Line(ErrorTag, m), WarnTag);
      CountLevelSnoc(out, Line(ErrorTag, m), ErrorTag);
      out := out + [Line(ErrorTag, m)];
      errors := errors + 1;
    }

    /** `info` (lines 34-36): one `[INFO]` line; no counter changes. */
    method Info(m: Msg)
      modifies this
      ensures out == old(out) + [Line(InfoTag, m)]
      ensures warnings == old(warnings) && errors == old(errors)
      ensures old(Counted()) ==> Counted()
    {
      CountLevelSnoc(out, Line(InfoTag, m), WarnTag);
      CountLevelSnoc(out, Line(InfoTag, m), ErrorTag);
      out := out + [Line(InfoTag, m)];
    }

    /** `log` (lines 42-44): one untagged line; no counter changes. */
    method Log(m: Msg)
      modifies this
      ensures out == old(out) + [Line(NoTag, m)]
      ensures warnings == old(warnings) && errors == old(errors)
      ensures old(Counted()) ==> Counted()
    {
      CountLevelSnoc(out, Line(NoTag, m), WarnTag);
      CountLevelSnoc(out, Line(NoTag, m), ErrorTag);
      out := out + [Line(NoTag, m)];
    }

    /** `empty` (lines 49-51): exactly one empty line; no counter changes. */
    method Empty()
      modifies this
      ensures out == old(out) + [Line(NoTag, Blank)]
      ensures warnings == old(warnings) && errors == old(errors)
      ensures old(Counted()) ==> Counted()
    {
      CountLevelSnoc(out, Line(NoTag, Blank), WarnTag);
      CountLevelSnoc(out, Line(NoTag, Blank), ErrorTag);
      out := out + [Line(NoTag, Blank)];
    }
  }
}
