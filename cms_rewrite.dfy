/**
 * `modify_cms_file` of cms/modify_cms.py without its file reading and
 * writing: the routes file is split into lines, the original Flask
 * imports and app creation are dropped, a fixed block of imports is put in
 * their place, `app.run(` lines are dropped, and every
 * `if __name__ == '__main__':` block is skipped up to the next route
 * decorator.
 */
module CmsRewrite {
  import opened Text
  import opened Seqs

  /** The markers of the original app set-up, dropped among the first 20 lines. */
  const ImportMarkers: seq<string> := ["from flask import Flask", "app = Flask(__name__)", "from flask_cors import CORS"]
  const ImportWindow: nat := 20
  const AppRunMarker: string := "app.run("
  const MainGuard: string := "if __name__ == '__main__':"
  const RoutePrefix: string := "@app.route"

  /** The imports emitted in front of line 0. */
  const Header: seq<string> := [
    "from app import app, db, login_manager",
    "from flask import render_template_string, redirect, url_for, request, flash, jsonify, send_from_directory",
    "from flask_login import UserMixin, login_user, logout_user, login_required, current_user",
    "from datetime import datetime, timedelta",
    "from dateutil.relativedelta import relativedelta",
    "import os",
    "import re",
    "import json",
    "import uuid",
    "from werkzeug.utils import secure_filename",
    "from flask import make_response",
    ""]

  predicate HasImportMarker(line: string) {
    Contains(line, ImportMarkers[0]) || Contains(line, ImportMarkers[1]) || Contains(line, ImportMarkers[2])
  }

  /** Line `i` is one of the original set-up lines near the top of the file. */
  predicate DroppedImport(i: nat, line: string) {
    i < ImportWindow && HasImportMarker(line)
  }

  /**
   * `line.strip().startswith('@app.route')`. The prefix holds no
   * whitespace, so stripping the end of the line cannot matter and only the
   * leading whitespace is removed here (see `IsRouteIgnoresTrailingSpace`).
   */
  predicate IsRoute(line: string) {
    StartsWith(TrimStart(line), RoutePrefix)
  }

  lemma SpaceSuffix(t: string, n: nat)
    requires n <= |t| && AllSpace(t[n..])
    ensures forall k :: n <= k < |t| ==> IsSpace(t[k])
  {
    forall k | n <= k < |t| ensures IsSpace(t[k]) {
      assert t[n..][k - n] == t[k];
    }
  }

  /** Stripping the end of a line never changes whether it starts with the route prefix. */
  lemma IsRouteIgnoresTrailingSpace(line: string)
    ensures IsRoute(line) <==> StartsWith(Trim(line), RoutePrefix)
  {
    var t := TrimStart(line);
    var r := TrimEnd(t);
    TrimEndShape(t);
    SpaceSuffix(t, |r|);
    if RoutePrefix <= t {
      assert !IsSpace(t[|RoutePrefix| - 1]);
    }
  }

  /** How the loop treats a line, by the first test that matches it. */
  datatype LineKind = SetupImport | AppRun | MainGuardLine | RouteLine | OtherLine

  /** The tests of the loop body, in the order they are made. */
  function KindOf(i: nat, line: string): LineKind {
    if DroppedImport(i, line) then SetupImport
    else if Contains(line, AppRunMarker) then AppRun
    else if Contains(line, MainGuard) then MainGuardLine
    else if IsRoute(line) then RouteLine
    else OtherLine
  }

  /** The header lines written while processing line `i`: only at line 0, and only when it is not dropped first. */
  function HeaderAt(i: nat, kind: LineKind): seq<string> {
    if i == 0 && kind != SetupImport then Header else []
  }

  /** A line of this kind is copied to the output, given the skip flag before it. */
  predicate Keeps(kind: LineKind, skip: bool) {
    match kind
    case SetupImport => false
    case AppRun => false
    case MainGuardLine => false
    case RouteLine => true
    case OtherLine => !skip
  }

  /** The skip flag after a line of this kind. */
  function NextSkip(kind: LineKind, skip: bool): bool {
    match kind
    case SetupImport => skip
    case AppRun => skip
    case MainGuardLine => true
    case RouteLine => false
    case OtherLine => skip
  }

  /** The kind of every line, by its position; `ClassifyAt` states which kind each line gets. */
  function Classify(lines: seq<string>): (kinds: seq<LineKind>)
    ensures |kinds| == |lines|
  {
    if lines == [] then []
    else Classify(lines[..|lines| - 1]) + [KindOf(|lines| - 1, lines[|lines| - 1])]
  }

  lemma {:induction false} ClassifyAt(lines: seq<string>, k: nat)
    requires k < |lines|
    ensures Classify(lines)[k] == KindOf(k, lines[k])
  {
    if k < |lines| - 1 {
      ClassifyAt(lines[..|lines| - 1], k);
    }
  }

  /** The output of the lines from `i` on, starting with skip flag `skip`. */
  function RunFrom(lines: seq<string>, kinds: seq<LineKind>, i: nat, skip: bool): seq<string>
    requires |kinds| == |lines|
    decreases |lines| - i
  {
    if i >= |lines| then []
    else
      HeaderAt(i, kinds[i]) + (if Keeps(kinds[i], skip) then [lines[i]] else []) +
      RunFrom(lines, kinds, i + 1, NextSkip(kinds[i], skip))
  }

  /** One unfolding of `RunFrom`. */
  lemma RunFromStep(lines: seq<string>, kinds: seq<LineKind>, i: nat, skip: bool)
    requires |kinds| == |lines| && i < |lines|
    ensures RunFrom(lines, kinds, i, skip) ==
      HeaderAt(i, kinds[i]) + (if Keeps(kinds[i], skip) then [lines[i]] else []) +
      RunFrom(lines, kinds, i + 1, NextSkip(kinds[i], skip))
  {
  }

  /** The rewritten lines. */
  function Rewrite(lines: seq<string>): seq<string> {
    RunFrom(lines, Classify(lines), 0, false)
  }

  /**
   * One pass of the loop body of `modify_cms_file` over line `i`: the lines
   * it appends and the skip flag it leaves, with its `continue`s.
   */
  method ProcessLine(i: nat, line: string, skipUntilRoute: bool) returns (appended: seq<string>, skipAfter: bool)
    ensures var kind := KindOf(i, line);
      && appended == HeaderAt(i, kind) + (if Keeps(kind, skipUntilRoute) then [line] else [])
      && skipAfter == NextSkip(kind, skipUntilRoute)
  {
    appended := [];
    skipAfter := skipUntilRoute;
    if i < ImportWindow && HasImportMarker(line) {
      return;
    }
    if i == 0 {
      appended := appended + Header;
    }
    if Contains(line, AppRunMarker) {
      return;
    }
    if Contains(line, MainGuard) {
      skipAfter := true;
      return;
    }
    if skipAfter && StartsWith(TrimStart(line), RoutePrefix) {
      skipAfter := false;
    }
    if !skipAfter {
      appended := appended + [line];
    }
  }

  /** The loop of `modify_cms_file`: every line is processed in order and its output appended. */
  method ModifyLines(lines: seq<string>) returns (modifiedLines: seq<string>)
    ensures modifiedLines == Rewrite(lines)
  {
    ghost var kinds := Classify(lines);
    modifiedLines := [];
    var skipUntilRoute := false;
    for i := 0 to |lines|
      invariant modifiedLines + RunFrom(lines, kinds, i, skipUntilRoute) == Rewrite(lines)
    {
      ClassifyAt(lines, i);
      RunFromStep(lines, kinds, i, skipUntilRoute);
      ghost var before := modifiedLines;
      ghost var rest := RunFrom(lines, kinds, i + 1, NextSkip(kinds[i], skipUntilRoute));
      var appended, skipAfter := ProcessLine(i, lines[i], skipUntilRoute);
      ConcatAssoc(before, appended, rest);
      modifiedLines := modifiedLines + appended;
      skipUntilRoute := skipAfter;
    }
  }

  /** The copied lines from `i` on, without the header. */
  function BodyFrom(lines: seq<string>, kinds: seq<LineKind>, i: nat, skip: bool): seq<string>
    requires |kinds| == |lines|
    decreases |lines| - i
  {
    if i >= |lines| then []
    else
      (if Keeps(kinds[i], skip) then [lines[i]] else []) + BodyFrom(lines, kinds, i + 1, NextSkip(kinds[i], skip))
  }

  /** After line 0 nothing but copied lines is written. */
  lemma {:induction false} RunFromIsBody(lines: seq<string>, kinds: seq<LineKind>, i: nat, skip: bool)
    requires |kinds| == |lines| && i > 0
    ensures RunFrom(lines, kinds, i, skip) == BodyFrom(lines, kinds, i, skip)
    decreases |lines| - i
  {
    if i < |lines| {
      RunFromIsBody(lines, kinds, i + 1, NextSkip(kinds[i], skip));
    }
  }

  /** The copied lines of the whole file. */
  function Body(lines: seq<string>): seq<string> {
    BodyFrom(lines, Classify(lines), 0, false)
  }

  /**
   * The output is the header, when line 0 is not one of the dropped set-up
   * lines, followed by the copied lines.
   */
  lemma RewriteShape(lines: seq<string>)
    ensures Rewrite(lines) == (if |lines| > 0 && !DroppedImport(0, lines[0]) then Header else []) + Body(lines)
  {
    if |lines| > 0 {
      var kinds := Classify(lines);
      ClassifyAt(lines, 0);
      var copied: seq<string> := if Keeps(kinds[0], false) then [lines[0]] else [];
      var rest := RunFrom(lines, kinds, 1, NextSkip(kinds[0], false));
      RunFromIsBody(lines, kinds, 1, NextSkip(kinds[0], false));
      var header := HeaderAt(0, kinds[0]);
      RunFromStep(lines, kinds, 0, false);
      ConcatAssoc(header, copied, rest);
      assert Body(lines) == copied + rest;
      assert header == if DroppedImport(0, lines[0]) then [] else Header;
    }
  }

  /** The copied lines are input lines, in their input order. */
  lemma {:induction false} BodyIsSubsequence(lines: seq<string>, kinds: seq<LineKind>, i: nat, skip: bool)
    requires |kinds| == |lines| && i <= |lines|
    ensures SubseqOf(BodyFrom(lines, kinds, i, skip), lines[i..])
    decreases |lines| - i
  {
    if i < |lines| {
      var rest := BodyFrom(lines, kinds, i + 1, NextSkip(kinds[i], skip));
      BodyIsSubsequence(lines, kinds, i + 1, NextSkip(kinds[i], skip));
      assert lines[i..][1..] == lines[i + 1..];
      if Keeps(kinds[i], skip) {
        var body := [lines[i]] + rest;
        assert BodyFrom(lines, kinds, i, skip) == body;
        assert body[1..] == rest && body[0] == lines[i..][0];
      } else {
        assert BodyFrom(lines, kinds, i, skip) == rest;
      }
    }
  }

  /** The output is the optional header followed by input lines in their input order. */
  lemma BodyOfFileIsSubsequence(lines: seq<string>)
    ensures SubseqOf(Body(lines), lines)
  {
    BodyIsSubsequence(lines, Classify(lines), 0, false);
    assert lines[0..] == lines;
  }

  /** No copied line calls `app.run(` or opens a main guard. */
  lemma {:induction false} BodyDropsMarkers(lines: seq<string>, i: nat, skip: bool)
    ensures forall l :: l in BodyFrom(lines, Classify(lines), i, skip) ==>
      !Contains(l, AppRunMarker) && !Contains(l, MainGuard)
    decreases |lines| - i
  {
    if i < |lines| {
      var kinds := Classify(lines);
      ClassifyAt(lines, i);
      var rest := BodyFrom(lines, kinds, i + 1, NextSkip(kinds[i], skip));
      BodyDropsMarkers(lines, i + 1, NextSkip(kinds[i], skip));
      if Keeps(kinds[i], skip) {
        assert kinds[i] == RouteLine || kinds[i] == OtherLine;
        assert BodyFrom(lines, kinds, i, skip) == [lines[i]] + rest;
      } else {
        assert BodyFrom(lines, kinds, i, skip) == rest;
      }
    }
  }

  /** What line `i` contributes to the copied lines, and the skip flag it leaves, by the first test it meets. */
  lemma BodyStep(lines: seq<string>, i: nat, skip: bool)
    requires i < |lines|
    ensures var kinds := Classify(lines); var line := lines[i];
      && (DroppedImport(i, line) ==> BodyFrom(lines, kinds, i, skip) == BodyFrom(lines, kinds, i + 1, skip))
      && (!DroppedImport(i, line) && Contains(line, AppRunMarker) ==>
            BodyFrom(lines, kinds, i, skip) == BodyFrom(lines, kinds, i + 1, skip))
      && (!DroppedImport(i, line) && !Contains(line, AppRunMarker) && Contains(line, MainGuard) ==>
            BodyFrom(lines, kinds, i, skip) == BodyFrom(lines, kinds, i + 1, true))
      && (!DroppedImport(i, line) && !Contains(line, AppRunMarker) && !Contains(line, MainGuard) && IsRoute(line) ==>
            BodyFrom(lines, kinds, i, skip) == [line] + BodyFrom(lines, kinds, i + 1, false))
      && (!DroppedImport(i, line) && !Contains(line, AppRunMarker) && !Contains(line, MainGuard) && !IsRoute(line) ==>
            BodyFrom(lines, kinds, i, skip) == (if skip then [] else [line]) + BodyFrom(lines, kinds, i + 1, skip))
  {
    ClassifyAt(lines, i);
  }

  /** While skipping, lines are dropped up to the next route decorator. */
  lemma {:induction false} SkipDropsUntilRoute(lines: seq<string>, i: nat, j: nat)
    requires i <= j <= |lines|
    requires forall k :: i <= k < j ==> !IsRoute(lines[k])
    ensures BodyFrom(lines, Classify(lines), i, true) == BodyFrom(lines, Classify(lines), j, true)
    decreases j - i
  {
    if i < j {
      ClassifyAt(lines, i);
      assert !IsRoute(lines[i]);
      SkipDropsUntilRoute(lines, i + 1, j);
    }
  }

  /** Lines with none of the markers are all copied. */
  lemma {:induction false} CleanLinesKept(lines: seq<string>, i: nat)
    requires i <= |lines|
    requires forall k :: 0 <= k < |lines| ==>
      !HasImportMarker(lines[k]) && !Contains(lines[k], AppRunMarker) && !Contains(lines[k], MainGuard)
    ensures BodyFrom(lines, Classify(lines), i, false) == lines[i..]
    decreases |lines| - i
  {
    if i < |lines| {
      ClassifyAt(lines, i);
      CleanLinesKept(lines, i + 1);
      assert lines[i..] == [lines[i]] + lines[i + 1..];
    }
  }

  /** A file with none of the markers comes out as the header followed by all of its lines. */
  lemma CleanFileGetsHeader(lines: seq<string>)
    requires |lines| > 0
    requires forall k :: 0 <= k < |lines| ==>
      !HasImportMarker(lines[k]) && !Contains(lines[k], AppRunMarker) && !Contains(lines[k], MainGuard)
    ensures Rewrite(lines) == Header + lines
  {
    RewriteShape(lines);
    CleanLinesKept(lines, 0);
    assert lines[0..] == lines;
  }

  /** Python `str.split('\n')`: the text between newlines, always at least one piece. */
  function Split(s: string): (r: seq<string>)
    ensures |r| >= 1
    ensures forall k :: 0 <= k < |r| ==> '\n' !in r[k]
  {
    if s == [] then [""]
    else
      var rest := Split(s[1..]);
      if s[0] == '\n' then [""] + rest
      else [[s[0]] + rest[0]] + rest[1..]
  }

  /** Python `'\n'.join(parts)`. */
  function Join(parts: seq<string>): string {
    if parts == [] then ""
    else if |parts| == 1 then parts[0]
    else parts[0] + "\n" + Join(parts[1..])
  }

  /** Joining the pieces of a split gives back the text. */
  lemma {:induction false} JoinSplit(s: string)
    ensures Join(Split(s)) == s
  {
    if s != [] {
      JoinSplit(s[1..]);
      var rest := Split(s[1..]);
      if s[0] != '\n' && |rest| > 1 {
        assert Join(Split(s)) == ([s[0]] + rest[0]) + "\n" + Join(rest[1..]);
        assert Join(rest) == rest[0] + "\n" + Join(rest[1..]);
      }
      assert s == [s[0]] + s[1..];
    }
  }

  lemma {:induction false} SplitNoNewline(a: string)
    requires '\n' !in a
    ensures Split(a) == [a]
  {
    if a != [] {
      SplitNoNewline(a[1..]);
      assert a == [a[0]] + a[1..];
    }
  }

  lemma {:induction false} SplitAfterLine(a: string, b: string)
    requires '\n' !in a
    ensures Split(a + "\n" + b) == [a] + Split(b)
  {
    if a == [] {
      assert a + "\n" + b == "\n" + b;
      assert ("\n" + b)[1..] == b;
    } else {
      SplitAfterLine(a[1..], b);
      assert (a + "\n" + b)[1..] == a[1..] + "\n" + b;
      assert a == [a[0]] + a[1..];
    }
  }

  /** Splitting joined lines that hold no newline gives back the lines. */
  lemma {:induction false} SplitJoin(parts: seq<string>)
    requires |parts| >= 1
    requires forall k :: 0 <= k < |parts| ==> '\n' !in parts[k]
    ensures Split(Join(parts)) == parts
  {
    if |parts| == 1 {
      SplitNoNewline(parts[0]);
    } else {
      SplitJoin(parts[1..]);
      SplitAfterLine(parts[0], Join(parts[1..]));
      assert parts == [parts[0]] + parts[1..];
    }
  }

  /** `modify_cms_file` on the text of the routes file. */
  method ModifyCmsContent(content: string) returns (output: string)
    ensures output == Join(Rewrite(Split(content)))
  {
    var lines := Split(content);
    var modifiedLines := ModifyLines(lines);
    output := Join(modifiedLines);
  }
}
