/** src/git.ts: the gateway to git. It holds the host's repository list and
    one state listener per repository, validates branch names with a single
    regular expression, parses the output of `git branch`, and builds the
    shell commands for create, checkout, delete and rename. */
module GitGateway {
  import opened Models
  import opened Text

  // ---------------------------------------------------------------------
  // Branch-name validation (the `validBranchName` regular expression)
  // ---------------------------------------------------------------------

  /** The negated character class: space (written twice, as ` ` and as
      `\040`), DEL and `~ ^ : ? * [`. Other control characters pass. */
  predicate IsExcludedChar(c: char) {
    c == ' ' || c == '\U{007F}' || c == '~' || c == '^' || c == ':' || c == '?' || c == '*' || c == '['
  }

  /** The two-character alternatives of the look-ahead: `/.`, `..`, `//`, `@{`. */
  predicate ForbiddenPairAt(t: string, i: nat)
    requires i + 1 < |t|
  {
    || ((t[i] == '/' || t[i] == '.') && t[i + 1] == '.')
    || (t[i] == '/' && t[i + 1] == '/')
    || (t[i] == '@' && t[i + 1] == '{')
  }

  /** Some alternative of the look-ahead, or a backslash, occurs in `t`. */
  predicate HasForbiddenSequence(t: string) {
    (exists i: nat :: i + 1 < |t| && ForbiddenPairAt(t, i)) || '\\' in t
  }

  predicate EndsWith(s: string, suffix: string) {
    |suffix| <= |s| && s[|s| - |suffix|..] == suffix
  }

  /** The regular expression, clause by clause: `[^…]+` wants at least one
      character and none excluded; `(?!\/|.*(?:…))` forbids a leading `/`
      and forbids the sequences, but its `.*` stops at the first line
      terminator, so only the first line is searched for them; the two
      look-behinds before `$` forbid a `.lock` suffix and a final `/` or `.`. */
  predicate ValidBranchName(name: string) {
    && name != []
    && name[0] != '/'
    && !HasForbiddenSequence(FirstLine(name))
    && (forall i :: 0 <= i < |name| ==> !IsExcludedChar(name[i]))
    && !EndsWith(name, ".lock")
    && name[|name| - 1] != '/' && name[|name| - 1] != '.'
  }

  /** The rules the expression is written to enforce, applied to the whole
      name: the reference the expression is compared against below. */
  predicate FollowsNameRules(name: string) {
    && name != []
    && name[0] != '/'
    && !HasForbiddenSequence(name)
    && (forall i :: 0 <= i < |name| ==> !IsExcludedChar(name[i]))
    && !EndsWith(name, ".lock")
    && name[|name| - 1] != '/' && name[|name| - 1] != '.'
  }

  lemma ValidRejectsEmpty()
    ensures !ValidBranchName("")
  {
  }

  lemma ValidRejectsLeadingSlash(name: string)
    requires name != [] && name[0] == '/'
    ensures !ValidBranchName(name)
  {
  }

  /** `/.`, `..`, `//` or `@{` on the first line rejects the name. */
  lemma ValidRejectsForbiddenPair(name: string, i: nat)
    requires i + 1 < |name| && ForbiddenPairAt(name, i)
    requires forall k :: 0 <= k < i ==> !IsLineTerminator(name[k])
    ensures !ValidBranchName(name)
  {
    FirstLineCovers(name, i + 2);
    var t := FirstLine(name);
    assert t[i] == name[i] && t[i + 1] == name[i + 1];
    assert ForbiddenPairAt(t, i);
  }

  /** A backslash on the first line rejects the name. */
  lemma ValidRejectsBackslash(name: string, i: nat)
    requires i < |name| && name[i] == '\\'
    requires forall k :: 0 <= k < i ==> !IsLineTerminator(name[k])
    ensures !ValidBranchName(name)
  {
    FirstLineCovers(name, i + 1);
    assert FirstLine(name)[i] == '\\';
  }

  lemma ValidRejectsExcludedChar(name: string, i: nat)
    requires i < |name| && IsExcludedChar(name[i])
    ensures !ValidBranchName(name)
  {
  }

  lemma ValidRejectsLockSuffix(name: string)
    requires EndsWith(name, ".lock")
    ensures !ValidBranchName(name)
  {
  }

  lemma ValidRejectsTrailingSlashOrDot(name: string)
    requires name != [] && (name[|name| - 1] == '/' || name[|name| - 1] == '.')
    ensures !ValidBranchName(name)
  {
  }

  /** A sequence found in a prefix is found in the whole string. */
  lemma ForbiddenInPrefix(t: string, s: string)
    requires |t| <= |s| && t == s[..|t|]
    requires HasForbiddenSequence(t)
    ensures HasForbiddenSequence(s)
  {
    if '\\' in t {
      var j :| 0 <= j < |t| && t[j] == '\\';
      assert s[j] == '\\';
    } else {
      var i: nat :| i + 1 < |t| && ForbiddenPairAt(t, i);
      assert s[i] == t[i] && s[i + 1] == t[i + 1];
      assert ForbiddenPairAt(s, i);
    }
  }

  /** Every name that follows the rules is accepted. */
  lemma RulesImplyValid(name: string)
    requires FollowsNameRules(name)
    ensures ValidBranchName(name)
  {
    if HasForbiddenSequence(FirstLine(name)) {
      ForbiddenInPrefix(FirstLine(name), name);
    }
  }

  /** On a single-line name the expression is exactly the rules. */
  lemma ValidIffRulesOnOneLine(name: string)
    requires forall k :: 0 <= k < |name| ==> !IsLineTerminator(name[k])
    ensures ValidBranchName(name) <==> FollowsNameRules(name)
  {
    FirstLineCovers(name, |name|);
    assert FirstLine(name) == name;
  }

  /** Past a line break the expression no longer sees `..`, so a name the
      rules reject is accepted. */
  lemma LineBreakHidesForbiddenPair()
    ensures ValidBranchName("a\n..b") && !FollowsNameRules("a\n..b")
  {
    var name := "a\n..b";
    assert FirstLine(name) == "a" by {
      SplitHead(name, LineTerminators);
    }
    assert ForbiddenPairAt(name, 2);
  }

  lemma ValidNameHasNoSpace(name: string)
    requires ValidBranchName(name)
    ensures Avoids(name, {' '})
  {
  }

  /** Names the expression accepts, including two git itself refuses: a
      leading dot and the bare `@`; control characters other than DEL pass. */
  lemma AcceptedExamples()
    ensures ValidBranchName("main") && ValidBranchName("feature/x")
    ensures ValidBranchName(".foo") && ValidBranchName("@") && ValidBranchName("a\tb")
  {
    RulesImplyValid("main");
    RulesImplyValid("@");
    RulesImplyValid("a\tb");
    AcceptedFeatureX();
    AcceptedDotFoo();
  }

  lemma AcceptedFeatureX()
    ensures ValidBranchName("feature/x")
  {
    var name := "feature/x";
    forall i: nat | i + 1 < |name| ensures !ForbiddenPairAt(name, i) {
      assert (name[i] != '/' && name[i] != '.' && name[i] != '@') || name[i + 1] == 'x';
    }
    RulesImplyValid(name);
  }

  lemma AcceptedDotFoo()
    ensures ValidBranchName(".foo")
  {
    var name := ".foo";
    forall i: nat | i + 1 < |name| ensures !ForbiddenPairAt(name, i) {
      assert name[i + 1] == 'f' || name[i + 1] == 'o';
    }
    RulesImplyValid(name);
  }

  lemma RejectedSequenceExamples()
    ensures !ValidBranchName("a//b") && !ValidBranchName("a/.b") && !ValidBranchName("a..b")
  {
    ValidRejectsForbiddenPair("a//b", 1);
    ValidRejectsForbiddenPair("a/.b", 1);
    ValidRejectsForbiddenPair("a..b", 1);
  }

  lemma RejectedEscapeExamples()
    ensures !ValidBranchName("a@{b") && !ValidBranchName("a\\b")
  {
    ValidRejectsForbiddenPair("a@{b", 1);
    ValidRejectsBackslash("a\\b", 1);
  }

  lemma RejectedShapeExamples()
    ensures !ValidBranchName("") && !ValidBranchName("/x")
    ensures !ValidBranchName("x.lock") && !ValidBranchName("x/") && !ValidBranchName("x.")
  {
    ValidRejectsLockSuffix("x.lock");
  }

  lemma RejectedCharacterExamples()
    ensures !ValidBranchName("a b") && !ValidBranchName("a~b") && !ValidBranchName("a^b")
    ensures !ValidBranchName("a:b") && !ValidBranchName("a?b") && !ValidBranchName("a*b")
    ensures !ValidBranchName("a[b") && !ValidBranchName("a\U{007F}b")
  {
    ValidRejectsExcludedChar("a b", 1);
    ValidRejectsExcludedChar("a~b", 1);
    ValidRejectsExcludedChar("a^b", 1);
    ValidRejectsExcludedChar("a:b", 1);
    ValidRejectsExcludedChar("a?b", 1);
    ValidRejectsExcludedChar("a*b", 1);
    ValidRejectsExcludedChar("a[b", 1);
    ValidRejectsExcludedChar("a\U{007F}b", 1);
  }

  // ---------------------------------------------------------------------
  // Parsing `git branch` output (getBranches)
  // ---------------------------------------------------------------------

  /** `filter(branch => !!branch)`: the non-empty lines, in order. */
  function NonEmpty(lines: seq<string>): (r: seq<string>)
    ensures forall k :: 0 <= k < |r| ==> r[k] != []
    ensures |r| <= |lines|
  {
    if lines == [] then []
    else (if lines[0] == [] then [] else [lines[0]]) + NonEmpty(lines[1..])
  }

  /** A single line is kept exactly when it is non-empty; with `NonEmptyAppend`
      this pins the filter down on every list. */
  lemma NonEmptySingle(line: string)
    ensures NonEmpty([line]) == (if line == [] then [] else [line])
  {
  }

  /** Filtering keeps order: it filters the two halves of a list separately. */
  lemma {:induction false} NonEmptyAppend(a: seq<string>, b: seq<string>)
    ensures NonEmpty(a + b) == NonEmpty(a) + NonEmpty(b)
    decreases |a|
  {
    if a != [] {
      assert (a + b)[0] == a[0] && (a + b)[1..] == a[1..] + b;
      NonEmptyAppend(a[1..], b);
    } else {
      assert a + b == b;
    }
  }

  /** One line as a row: a leading `*` marks the checked-out branch and is
      dropped before trimming; every row carries the repository it was
      listed for. */
  function ParseLine(repo: Repository, line: string): (b: Branch)
    ensures b.repo == repo
    ensures b.selected <==> (line != [] && line[0] == '*')
    ensures b.branchName == Some(Trim(if b.selected then line[1..] else line))
    ensures IsTrimmed(b.branchName.value)
    ensures b.upstreamState.None? && b.upstreamBranchName.None?
  {
    var starred := line != [] && line[0] == '*';
    Branch(repo, Some(if starred then Trim(line[1..]) else Trim(line)), starred, None, None)
  }

  /** A blank line gives an unselected row with the empty name. */
  lemma BlankLineGivesEmptyName(repo: Repository, blank: string)
    requires blank != [] && AllTrimmable(blank)
    ensures ParseLine(repo, blank) == Branch(repo, Some(""), false, None, None)
  {
    assert blank[0] != '*' by {
      assert IsTrimmable(blank[0]);
    }
    assert Trim(blank) == [];
  }

  /** A star followed by blanks gives the selected row with the empty name. */
  lemma StarredBlankLineGivesEmptyName(repo: Repository, blank: string)
    requires AllTrimmable(blank)
    ensures ParseLine(repo, "*" + blank) == Branch(repo, Some(""), true, None, None)
  {
    assert ("*" + blank)[0] == '*' && ("*" + blank)[1..] == blank;
  }

  /** The rows of a list of lines: one per non-empty line, in order. */
  function ParseLines(repo: Repository, lines: seq<string>): (rows: seq<Branch>)
    ensures |rows| == |NonEmpty(lines)|
    ensures forall k :: 0 <= k < |rows| ==> rows[k] == ParseLine(repo, NonEmpty(lines)[k])
  {
    if lines == [] then []
    else (if lines[0] == [] then [] else [ParseLine(repo, lines[0])]) + ParseLines(repo, lines[1..])
  }

  lemma {:induction false} ParseLinesAppend(repo: Repository, a: seq<string>, b: seq<string>)
    ensures ParseLines(repo, a + b) == ParseLines(repo, a) + ParseLines(repo, b)
    decreases |a|
  {
    if a != [] {
      assert (a + b)[0] == a[0] && (a + b)[1..] == a[1..] + b;
      ParseLinesAppend(repo, a[1..], b);
      var head := if a[0] == [] then [] else [ParseLine(repo, a[0])];
      assert ParseLines(repo, a + b) == head + ParseLines(repo, a[1..] + b);
      assert ParseLines(repo, a) == head + ParseLines(repo, a[1..]);
    } else {
      assert a + b == b;
    }
  }

  /** Minus the shell call: the rows for the standard output of `git branch`. */
  function ParseBranches(repo: Repository, stdout: string): (rows: seq<Branch>)
    ensures |rows| == |NonEmpty(Split(stdout, {'\n'}))|
    ensures forall k :: 0 <= k < |rows| ==>
      && rows[k].repo == repo
      && rows[k].branchName.Some?
      && IsTrimmed(rows[k].branchName.value)
  {
    ParseLines(repo, Split(stdout, {'\n'}))
  }

  /** Two outputs joined by a line break give the rows of the first, then
      the rows of the second. */
  lemma ParseBranchesAppend(repo: Repository, a: string, b: string)
    ensures ParseBranches(repo, a + "\n" + b) == ParseBranches(repo, a) + ParseBranches(repo, b)
  {
    SplitAtSeparator(a, b, '\n', {'\n'});
    ParseLinesAppend(repo, Split(a, {'\n'}), Split(b, {'\n'}));
  }

  /** A branch line in the format the parser expects: `* ` before the
      checked-out branch, two spaces before the others. (git also prints
      `+ ` before a branch checked out in another worktree; see
      `WorktreeLineKeepsMarker`.) */
  function RenderLine(b: Branch): string {
    (if b.selected then "* " else "  ") + Interpolate(b.branchName)
  }

  /** `git branch` output for the given rows, one line each. */
  function Render(rows: seq<Branch>): string {
    if rows == [] then "" else RenderLine(rows[0]) + "\n" + Render(rows[1..])
  }

  /** A row git can print and the parser can give back: a name with no line
      break and no whitespace at either end, listed for `repo`. */
  predicate Listable(repo: Repository, b: Branch) {
    && b.repo == repo
    && b.branchName.Some?
    && Avoids(b.branchName.value, {'\n'})
    && IsTrimmed(b.branchName.value)
    && b.upstreamState.None? && b.upstreamBranchName.None?
  }

  lemma RenderLineAvoids(b: Branch)
    requires b.branchName.Some? && Avoids(b.branchName.value, {'\n'})
    ensures Avoids(RenderLine(b), {'\n'}) && RenderLine(b) != []
  {
    var prefix := if b.selected then "* " else "  ";
    assert RenderLine(b) == prefix + b.branchName.value;
    assert Avoids(prefix, {'\n'});
  }

  /** The checked-out line `* name` reads back as the selected row `name`. */
  lemma ParseSelectedLine(repo: Repository, name: string)
    requires IsTrimmed(name)
    ensures ParseLine(repo, "* " + name) == Branch(repo, Some(name), true, None, None)
  {
    var line := "* " + name;
    assert line[0] == '*';
    assert line[1..] == " " + name + "";
    TrimPadded(" ", name, "");
  }

  /** Any other line `  name` reads back as the unselected row `name`. */
  lemma ParseOtherLine(repo: Repository, name: string)
    requires IsTrimmed(name)
    ensures ParseLine(repo, "  " + name) == Branch(repo, Some(name), false, None, None)
  {
    var line := "  " + name;
    assert line[0] == ' ';
    assert line == "  " + name + "";
    TrimPadded("  ", name, "");
  }

  lemma ParseRenderLine(repo: Repository, b: Branch)
    requires Listable(repo, b)
    ensures Avoids(RenderLine(b), {'\n'}) && RenderLine(b) != []
    ensures ParseLine(repo, RenderLine(b)) == b
  {
    RenderLineAvoids(b);
    var name := b.branchName.value;
    if b.selected {
      assert RenderLine(b) == "* " + name;
      ParseSelectedLine(repo, name);
    } else {
      assert RenderLine(b) == "  " + name;
      ParseOtherLine(repo, name);
    }
  }

  /** The parser reads back a listing in the `* ` / two-space format whose
      names have no line break and no whitespace at either end: same rows,
      same order, same selection. */
  lemma {:induction false} ParseRender(repo: Repository, rows: seq<Branch>)
    requires forall k :: 0 <= k < |rows| ==> Listable(repo, rows[k])
    ensures ParseBranches(repo, Render(rows)) == rows
    decreases |rows|
  {
    if rows == [] {
      assert Split("", {'\n'}) == [[]];
    } else {
      var line, rest := RenderLine(rows[0]), Render(rows[1..]);
      ParseRenderLine(repo, rows[0]);
      SplitAtSeparator(line, rest, '\n', {'\n'});
      SplitWhole(line, {'\n'});
      ParseRender(repo, rows[1..]);
      ParseLinesAppend(repo, [line], Split(rest, {'\n'}));
      assert [line][1..] == [];
      assert rows == [rows[0]] + rows[1..];
    }
  }

  /** A worktree line `+ name` is not starred, and the marker stays in the
      name, since only `*` is stripped. */
  lemma WorktreeLineKeepsMarker(repo: Repository, name: string)
    requires name != [] && IsTrimmed(name)
    ensures ParseLine(repo, "+ " + name) == Branch(repo, Some("+ " + name), false, None, None)
  {
    var line := "+ " + name;
    assert line[0] == '+';
    assert IsTrimmed(line) by {
      assert line[|line| - 1] == name[|name| - 1];
    }
    assert line == "" + line + "";
    TrimPadded("", line, "");
  }

  /** A name that starts or ends with non-ASCII whitespace (here U+00A0 and
      U+3000, which git allows in branch names) loses it: `trim` removes
      every ECMAScript white space character. */
  lemma UnicodePaddingIsLost(repo: Repository, name: string)
    requires IsTrimmed(name)
    ensures ParseLine(repo, "  " + ("\U{00A0}" + name + "\U{3000}")) == Branch(repo, Some(name), false, None, None)
  {
    var line := "  " + ("\U{00A0}" + name + "\U{3000}");
    assert line[0] == ' ';
    assert line == "  \U{00A0}" + name + "\U{3000}";
    TrimPadded("  \U{00A0}", name, "\U{3000}");
  }

  /** The listing of a repository whose `main` is checked out and which also
      has `feature/x`. */
  lemma ParseExample(repo: Repository)
    ensures ParseBranches(repo, "* main\n  feature/x\n")
      == [Branch(repo, Some("main"), true, None, None), Branch(repo, Some("feature/x"), false, None, None)]
  {
    var rows := [Branch(repo, Some("main"), true, None, None), Branch(repo, Some("feature/x"), false, None, None)];
    assert rows[1..] == [rows[1]] && [rows[1]][1..] == [];
    assert Render(rows[1..][1..]) == "";
    assert RenderLine(rows[1]) == "  feature/x";
    assert Render(rows[1..]) == "  feature/x\n";
    assert RenderLine(rows[0]) == "* main";
    assert Render(rows) == "* main\n  feature/x\n";
    ParseRender(repo, rows);
  }

  /** `getBranches`: no listing at all for a repository without a path;
      otherwise the rows of `stdout`, the output of `git branch` run in the
      repository's root folder. */
  function GetBranches(repo: Repository, stdout: string): (rows: seq<Branch>)
    ensures repo.rootPath == [] ==> rows == []
    ensures repo.rootPath != [] ==> rows == ParseBranches(repo, stdout)
    ensures forall k :: 0 <= k < |rows| ==> rows[k].repo == repo && rows[k].branchName.Some?
  {
    if repo.rootPath == [] then [] else ParseBranches(repo, stdout)
  }

  // ---------------------------------------------------------------------
  // Commands for create, checkout, delete and rename
  // ---------------------------------------------------------------------

  /** One `exec` call: the shell command and its working directory. */
  datatype Invocation = Invocation(cwd: string, command: string)

  /** What a gateway operation does before it awaits `exec`: whether it shows
      the invalid-name error, and which command it runs, if any. */
  datatype Plan = Plan(showsError: bool, invocation: Option<Invocation>)

  const InvalidNameMessage: string := "Branch name is not valid"

  /** A command runs in the repository's root folder; a repository without a
      path runs nothing. */
  function InvocationIn(repo: Repository, command: string): Option<Invocation> {
    if repo.rootPath == [] then None else Some(Invocation(repo.rootPath, command))
  }

  function CreateBranchCommand(name: string): string {
    "git checkout -b " + name
  }

  function CheckoutBranchCommand(branch: Branch): string {
    "git checkout " + Interpolate(branch.branchName)
  }

  function DeleteBranchCommand(branch: Branch): string {
    "git branch -D " + Interpolate(branch.branchName)
  }

  /** The checked-out branch is renamed by the one-argument form. */
  function RenameBranchCommand(branch: Branch, newName: string): string {
    if branch.selected then "git branch -m " + newName
    else "git branch -m " + Interpolate(branch.branchName) + " " + newName
  }

  function CreateBranchPlan(repo: Repository, name: string): Plan {
    Plan(!ValidBranchName(name), InvocationIn(repo, CreateBranchCommand(name)))
  }

  function CheckoutBranchPlan(branch: Branch): Plan {
    Plan(false, InvocationIn(branch.repo, CheckoutBranchCommand(branch)))
  }

  function DeleteBranchPlan(branch: Branch): Plan {
    Plan(false, InvocationIn(branch.repo, DeleteBranchCommand(branch)))
  }

  function RenameBranchPlan(branch: Branch, newName: string): Plan {
    Plan(!ValidBranchName(newName), InvocationIn(branch.repo, RenameBranchCommand(branch, newName)))
  }

  /** An invalid name is reported, yet the command is still run. */
  lemma InvalidNameStillRuns(repo: Repository, branch: Branch, name: string)
    requires !ValidBranchName(name)
    ensures CreateBranchPlan(repo, name).showsError
    ensures CreateBranchPlan(repo, name).invocation.Some? <==> repo.rootPath != []
    ensures RenameBranchPlan(branch, name).showsError
    ensures RenameBranchPlan(branch, name).invocation.Some? <==> branch.repo.rootPath != []
  {
  }

  /** Without a repository path no operation runs a command. */
  lemma EmptyPathRunsNothing(repo: Repository, branch: Branch, name: string)
    requires repo.rootPath == [] && branch.repo.rootPath == []
    ensures CreateBranchPlan(repo, name).invocation.None?
    ensures CheckoutBranchPlan(branch).invocation.None?
    ensures DeleteBranchPlan(branch).invocation.None?
    ensures RenameBranchPlan(branch, name).invocation.None?
  {
  }

  /** The words of `prefix + " " + w`, when neither contains a space. */
  lemma WordsAppend(prefix: string, w: string)
    requires Avoids(w, {' '})
    ensures Split(prefix + " " + w, {' '}) == Split(prefix, {' '}) + [w]
  {
    SplitAtSeparator(prefix, w, ' ', {' '});
    SplitWhole(w, {' '});
  }

  lemma Words(w: string)
    requires Avoids(w, {' '})
    ensures Split(w, {' '}) == [w]
  {
    SplitWhole(w, {' '});
  }

  /** Space-free words joined by single spaces split back into those words. */
  lemma ThreeWords(a: string, b: string, c: string)
    requires Avoids(a, {' '}) && Avoids(b, {' '}) && Avoids(c, {' '})
    ensures Split(a + " " + b + " " + c, {' '}) == [a, b, c]
  {
    Words(a);
    WordsAppend(a, b);
    WordsAppend(a + " " + b, c);
  }

  lemma FourWords(a: string, b: string, c: string, d: string)
    requires Avoids(a, {' '}) && Avoids(b, {' '}) && Avoids(c, {' '}) && Avoids(d, {' '})
    ensures Split(a + " " + b + " " + c + " " + d, {' '}) == [a, b, c, d]
  {
    ThreeWords(a, b, c);
    WordsAppend(a + " " + b + " " + c, d);
  }

  lemma FiveWords(a: string, b: string, c: string, d: string, e: string)
    requires Avoids(a, {' '}) && Avoids(b, {' '}) && Avoids(c, {' '}) && Avoids(d, {' '}) && Avoids(e, {' '})
    ensures Split(a + " " + b + " " + c + " " + d + " " + e, {' '}) == [a, b, c, d, e]
  {
    FourWords(a, b, c, d);
    WordsAppend(a + " " + b + " " + c + " " + d, e);
  }

  /** Create runs `git checkout -b` with the name as its single argument. */
  lemma CreateBranchWords(name: string)
    requires Avoids(name, {' '})
    ensures Split(CreateBranchCommand(name), {' '}) == ["git", "checkout", "-b", name]
  {
    assert CreateBranchCommand(name) == "git" + " " + "checkout" + " " + "-b" + " " + name;
    FourWords("git", "checkout", "-b", name);
  }

  lemma CheckoutBranchWords(branch: Branch)
    requires Avoids(Interpolate(branch.branchName), {' '})
    ensures Split(CheckoutBranchCommand(branch), {' '}) == ["git", "checkout", Interpolate(branch.branchName)]
  {
    var name := Interpolate(branch.branchName);
    assert CheckoutBranchCommand(branch) == "git" + " " + "checkout" + " " + name;
    ThreeWords("git", "checkout", name);
  }

  lemma DeleteBranchWords(branch: Branch)
    requires Avoids(Interpolate(branch.branchName), {' '})
    ensures Split(DeleteBranchCommand(branch), {' '}) == ["git", "branch", "-D", Interpolate(branch.branchName)]
  {
    var name := Interpolate(branch.branchName);
    assert DeleteBranchCommand(branch) == "git" + " " + "branch" + " " + "-D" + " " + name;
    FourWords("git", "branch", "-D", name);
  }

  /** Rename passes the new name alone for the checked-out branch and the old
      name then the new name for any other branch. */
  lemma RenameBranchWords(branch: Branch, newName: string)
    requires Avoids(Interpolate(branch.branchName), {' '}) && Avoids(newName, {' '})
    ensures Split(RenameBranchCommand(branch, newName), {' '}) ==
      ["git", "branch", "-m"] + (if branch.selected then [] else [Interpolate(branch.branchName)]) + [newName]
  {
    var oldName := Interpolate(branch.branchName);
    if branch.selected {
      assert RenameBranchCommand(branch, newName) == "git" + " " + "branch" + " " + "-m" + " " + newName;
      FourWords("git", "branch", "-m", newName);
    } else {
      assert RenameBranchCommand(branch, newName) == "git" + " " + "branch" + " " + "-m" + " " + oldName + " " + newName;
      FiveWords("git", "branch", "-m", oldName, newName);
    }
  }

  /** A name made of two space-free words reaches the shell as two words. */
  lemma CreateBranchTwoWords(a: string, b: string)
    requires Avoids(a, {' '}) && Avoids(b, {' '})
    ensures Split(CreateBranchCommand(a + " " + b), {' '}) == ["git", "checkout", "-b", a, b]
  {
    assert CreateBranchCommand(a + " " + b) == "git" + " " + "checkout" + " " + "-b" + " " + a + " " + b;
    FiveWords("git", "checkout", "-b", a, b);
  }

  /** An invalid name containing a space still runs, and the space splits it
      into two arguments: the reply `a b` runs `git checkout -b a b`. */
  lemma SpacedNameRunsSeveralWords(repo: Repository)
    requires repo.rootPath != []
    ensures !ValidBranchName("a b")
    ensures CreateBranchPlan(repo, "a b") == Plan(true, Some(Invocation(repo.rootPath, "git checkout -b a b")))
    ensures Split(CreateBranchCommand("a b"), {' '}) == ["git", "checkout", "-b", "a", "b"]
  {
    ValidRejectsExcludedChar("a b", 1);
    assert CreateBranchCommand("a b") == "git checkout -b a b";
    assert "a b" == "a" + " " + "b";
    CreateBranchTwoWords("a", "b");
  }

  // ---------------------------------------------------------------------
  // The Git object: repositories, listeners, and what each operation does
  // ---------------------------------------------------------------------

  /** The `repo.state.onDidChange` subscription made for one repository. */
  datatype Listener = StateListener(repo: Repository)

  /** What the gateway does that can be observed from outside. */
  datatype Effect =
    | ShowError(message: string)
    | Run(invocation: Invocation)
    | DisposeListener(listener: Listener)
    | FireReposChanged

  /** The operations of the gateway that commands call. */
  datatype Operation =
    | RefreshOp
    | CreateOp(repo: Repository, name: string)
    | CheckoutOp(branch: Branch)
    | DeleteOp(branch: Branch)
    | RenameOp(branch: Branch, newName: string)

  function ListenersFor(repos: seq<Repository>): seq<Listener> {
    seq(|repos|, k requires 0 <= k < |repos| => StateListener(repos[k]))
  }

  function Disposals(listeners: seq<Listener>): seq<Effect>
    decreases |listeners|
  {
    if listeners == [] then []
    else Disposals(listeners[..|listeners| - 1]) + [DisposeListener(listeners[|listeners| - 1])]
  }

  /** `getRepos`: dispose every listener; then, if the host's git API is
      available, take its repositories and announce the change. */
  function RefreshEffects(listeners: seq<Listener>, api: Option<seq<Repository>>): seq<Effect> {
    Disposals(listeners) + (if api.Some? then [FireReposChanged] else [])
  }

  function PlanOf(op: Operation): Plan {
    match op
    case RefreshOp => Plan(false, None)
    case CreateOp(repo, name) => CreateBranchPlan(repo, name)
    case CheckoutOp(branch) => CheckoutBranchPlan(branch)
    case DeleteOp(branch) => DeleteBranchPlan(branch)
    case RenameOp(branch, newName) => RenameBranchPlan(branch, newName)
  }

  function PlanEffects(p: Plan): seq<Effect> {
    (if p.showsError then [ShowError(InvalidNameMessage)] else [])
    + (if p.invocation.Some? then [Run(p.invocation.value)] else [])
  }

  /** Whether the operation ends in `refresh()`: refresh always does; the
      others do once their command has run and succeeded. */
  predicate Refreshes(op: Operation, execSucceeds: bool) {
    op.RefreshOp? || (PlanOf(op).invocation.Some? && execSucceeds)
  }

  function OperationEffects(op: Operation, execSucceeds: bool, listeners: seq<Listener>, api: Option<seq<Repository>>): seq<Effect> {
    PlanEffects(PlanOf(op)) + (if Refreshes(op, execSucceeds) then RefreshEffects(listeners, api) else [])
  }

  /** How many effects are of the given kind. */
  function Count(effects: seq<Effect>, kind: Effect -> bool): (n: nat)
    ensures n <= |effects|
    ensures n == 0 <==> forall i :: 0 <= i < |effects| ==> !kind(effects[i])
  {
    if effects == [] then 0 else (if kind(effects[0]) then 1 else 0) + Count(effects[1..], kind)
  }

  lemma {:induction false} CountAppend(a: seq<Effect>, b: seq<Effect>, kind: Effect -> bool)
    ensures Count(a + b, kind) == Count(a, kind) + Count(b, kind)
    decreases |a|
  {
    if a != [] {
      assert (a + b)[0] == a[0] && (a + b)[1..] == a[1..] + b;
      CountAppend(a[1..], b, kind);
    } else {
      assert a + b == b;
    }
  }

  lemma {:induction false} DisposalsOnlyDispose(listeners: seq<Listener>, kind: Effect -> bool)
    requires forall l :: !kind(DisposeListener(l))
    ensures Count(Disposals(listeners), kind) == 0
    decreases |listeners|
  {
    if listeners != [] {
      var init := listeners[..|listeners| - 1];
      DisposalsOnlyDispose(init, kind);
      CountAppend(Disposals(init), [DisposeListener(listeners[|listeners| - 1])], kind);
    }
  }

  predicate IsFire(e: Effect) { e.FireReposChanged? }
  predicate IsRun(e: Effect) { e.Run? }

  lemma PlanCounts(p: Plan)
    ensures Count(PlanEffects(p), IsRun) == (if p.invocation.Some? then 1 else 0)
    ensures Count(PlanEffects(p), IsFire) == 0
  {
    var e1 := if p.showsError then [ShowError(InvalidNameMessage)] else [];
    var e2 := if p.invocation.Some? then [Run(p.invocation.value)] else [];
    CountAppend(e1, e2, IsRun);
    CountAppend(e1, e2, IsFire);
  }

  lemma RefreshCounts(listeners: seq<Listener>, api: Option<seq<Repository>>)
    ensures Count(RefreshEffects(listeners, api), IsRun) == 0
    ensures Count(RefreshEffects(listeners, api), IsFire) == (if api.Some? then 1 else 0)
  {
    var fire := if api.Some? then [FireReposChanged] else [];
    DisposalsOnlyDispose(listeners, IsRun);
    DisposalsOnlyDispose(listeners, IsFire);
    CountAppend(Disposals(listeners), fire, IsRun);
    CountAppend(Disposals(listeners), fire, IsFire);
  }

  /** Every operation runs at most one command; the change notification
      fires exactly once when the operation refreshes with the API present,
      and never after a command that failed. */
  lemma OperationCounts(op: Operation, execSucceeds: bool, listeners: seq<Listener>, api: Option<seq<Repository>>)
    ensures Count(OperationEffects(op, execSucceeds, listeners, api), IsRun) ==
      (if PlanOf(op).invocation.Some? then 1 else 0)
    ensures Count(OperationEffects(op, execSucceeds, listeners, api), IsFire) ==
      (if Refreshes(op, execSucceeds) && api.Some? then 1 else 0)
  {
    var p := PlanOf(op);
    var tail := if Refreshes(op, execSucceeds) then RefreshEffects(listeners, api) else [];
    assert OperationEffects(op, execSucceeds, listeners, api) == PlanEffects(p) + tail;
    PlanCounts(p);
    RefreshCounts(listeners, api);
    CountAppend(PlanEffects(p), tail, IsRun);
    CountAppend(PlanEffects(p), tail, IsFire);
  }

  /** Any other operation is its plan, then a refresh when its command ran and succeeded. */
  lemma PlannedOpEffects(op: Operation, execSucceeds: bool, listeners: seq<Listener>, api: Option<seq<Repository>>)
    requires !op.RefreshOp?
    ensures Refreshes(op, execSucceeds) == (PlanOf(op).invocation.Some? && execSucceeds)
    ensures OperationEffects(op, execSucceeds, listeners, api) == PlanEffects(PlanOf(op)) +
      (if PlanOf(op).invocation.Some? && execSucceeds then RefreshEffects(listeners, api) else [])
  {
  }

  /** A refresh is its disposals and notification, with no plan of its own. */
  lemma RefreshOpEffects(listeners: seq<Listener>, api: Option<seq<Repository>>)
    ensures OperationEffects(RefreshOp, true, listeners, api) == RefreshEffects(listeners, api)
  {
    assert PlanEffects(PlanOf(RefreshOp)) == [];
  }

  class Git {
    var repos: seq<Repository>
    var repoStateChanges: seq<Listener>
    var effects: seq<Effect>

    /** The listeners are either all gone or one per current repository. */
    ghost predicate Valid()
      reads this
    {
      repoStateChanges == [] || repoStateChanges == ListenersFor(repos)
    }

    /** `getRepositories` */
    function GetRepositories(): seq<Repository>
      reads this
    {
      repos
    }

    /** The state after `op` given the state before it. */
    twostate predicate Did(op: Operation, execSucceeds: bool, api: Option<seq<Repository>>)
      reads this
    {
      && effects == old(effects) + OperationEffects(op, execSucceeds, old(repoStateChanges), api)
      && (if Refreshes(op, execSucceeds) then
            && repos == (if api.Some? then api.value else old(repos))
            && repoStateChanges == (if api.Some? then ListenersFor(repos) else [])
          else
            repos == old(repos) && repoStateChanges == old(repoStateChanges))
    }

    /** `api` is what the host's git extension offers at that moment: its
        repository list, or nothing when the extension is missing. */
    constructor (api: Option<seq<Repository>>)
      ensures Valid()
      ensures repos == (if api.Some? then api.value else [])
      ensures repoStateChanges == (if api.Some? then ListenersFor(repos) else [])
      ensures effects == (if api.Some? then [FireReposChanged] else [])
    {
      repos, repoStateChanges, effects := [], [], [];
      new;
      GetRepos(api);
    }

    method GetRepos(api: Option<seq<Repository>>)
      requires Valid()
      modifies this
      ensures Valid() && Did(RefreshOp, true, api)
    {
      RefreshOpEffects(repoStateChanges, api);
      var disposed: seq<Effect> := [];
      for i := 0 to |repoStateChanges|
        invariant disposed == Disposals(repoStateChanges[..i])
      {
        assert repoStateChanges[..i + 1][..i] == repoStateChanges[..i];
        disposed := disposed + [DisposeListener(repoStateChanges[i])];
      }
      assert repoStateChanges[..|repoStateChanges|] == repoStateChanges;
      effects := effects + disposed;
      repoStateChanges := [];
      if api.Some? {
        repos := api.value;
        effects := effects + [FireReposChanged];
        repoStateChanges := ListenersFor(repos);
      }
    }

    method Refresh(api: Option<seq<Repository>>) returns (fired: bool)
      requires Valid()
      modifies this
      ensures Valid() && Did(RefreshOp, true, api)
      ensures fired == api.Some?
    {
      GetRepos(api);
      fired := api.Some?;
    }

    /** Shows the error when the plan says so and runs the planned command. */
    method ShowAndRun(plan: Plan)
      modifies this`effects
      ensures effects == old(effects) + PlanEffects(plan)
    {
      if plan.showsError {
        effects := effects + [ShowError(InvalidNameMessage)];
      }
      if plan.invocation.Some? {
        effects := effects + [Run(plan.invocation.value)];
      }
    }

    /** Shows the error, runs the planned command, and refreshes once the
        command has succeeded. */
    method Apply(plan: Plan, execSucceeds: bool, api: Option<seq<Repository>>) returns (fired: bool)
      requires Valid()
      modifies this
      ensures Valid()
      ensures var refreshes := plan.invocation.Some? && execSucceeds;
        && effects == old(effects) + PlanEffects(plan) +
             (if refreshes then RefreshEffects(old(repoStateChanges), api) else [])
        && (if refreshes then
              && repos == (if api.Some? then api.value else old(repos))
              && repoStateChanges == (if api.Some? then ListenersFor(repos) else [])
            else repos == old(repos) && repoStateChanges == old(repoStateChanges))
        && fired == (refreshes && api.Some?)
    {
      var listeners := repoStateChanges;
      ShowAndRun(plan);
      if plan.invocation.Some? && execSucceeds {
        RefreshOpEffects(listeners, api);
        GetRepos(api);
        fired := api.Some?;
      } else {
        fired := false;
      }
    }

    /** An operation other than refresh: its plan, applied. */
    method Perform(op: Operation, execSucceeds: bool, api: Option<seq<Repository>>) returns (fired: bool)
      requires Valid() && !op.RefreshOp?
      modifies this
      ensures Valid() && Did(op, execSucceeds, api)
      ensures fired == (Refreshes(op, execSucceeds) && api.Some?)
    {
      PlannedOpEffects(op, execSucceeds, repoStateChanges, api);
      fired := Apply(PlanOf(op), execSucceeds, api);
    }

    method CreateBranch(repo: Repository, branchName: string, execSucceeds: bool, api: Option<seq<Repository>>)
      returns (fired: bool)
      requires Valid()
      modifies this
      ensures Valid() && Did(CreateOp(repo, branchName), execSucceeds, api)
      ensures fired == (Refreshes(CreateOp(repo, branchName), execSucceeds) && api.Some?)
    {
      fired := Perform(CreateOp(repo, branchName), execSucceeds, api);
    }

    method CheckoutBranch(branch: Branch, execSucceeds: bool, api: Option<seq<Repository>>) returns (fired: bool)
      requires Valid()
      modifies this
      ensures Valid() && Did(CheckoutOp(branch), execSucceeds, api)
      ensures fired == (Refreshes(CheckoutOp(branch), execSucceeds) && api.Some?)
    {
      fired := Perform(CheckoutOp(branch), execSucceeds, api);
    }

    method DeleteBranch(branch: Branch, execSucceeds: bool, api: Option<seq<Repository>>) returns (fired: bool)
      requires Valid()
      modifies this
      ensures Valid() && Did(DeleteOp(branch), execSucceeds, api)
      ensures fired == (Refreshes(DeleteOp(branch), execSucceeds) && api.Some?)
    {
      fired := Perform(DeleteOp(branch), execSucceeds, api);
    }

    method RenameBranch(branch: Branch, newName: string, execSucceeds: bool, api: Option<seq<Repository>>)
      returns (fired: bool)
      requires Valid()
      modifies this
      ensures Valid() && Did(RenameOp(branch, newName), execSucceeds, api)
      ensures fired == (Refreshes(RenameOp(branch, newName), execSucceeds) && api.Some?)
    {
      fired := Perform(RenameOp(branch, newName), execSucceeds, api);
    }
  }
}
