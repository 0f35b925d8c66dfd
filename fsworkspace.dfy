/**
 * `fsworkspace.Initializer`: the `.gitignore` that `Init` keeps up to date and
 * the decision, template by template, whether to write it and with which
 * permissions. Reading and writing files, `os.MkdirAll` and `os.Stat` are
 * left to the caller: the model computes what would be written.
 */
module FsWorkspace {
  import opened Common
  import opened Text
  import opened Errors
  import Paths

  const Header := "# Lynix"

  /** The entries every workspace's `.gitignore` lists, in the order they are added. */
  const Entries: seq<string> := ["runs/", ".lynix/", "lynix.lock", "env/secrets.local.yaml"]

  /** Permission bits 0644 and 0600. */
  const ModeDefault: nat := 420
  const ModeSecret: nat := 384

  // ---------------------------------------------------------------------
  // Lines of text

  /** Each string followed by a newline. */
  function Lines(ms: seq<string>): string
    decreases |ms|
  {
    if ms == [] then "" else ms[0] + "\n" + Lines(ms[1..])
  }

  lemma {:induction false} LinesAppend(a: seq<string>, b: seq<string>)
    ensures Lines(a + b) == Lines(a) + Lines(b)
    decreases |a|
  {
    if a != [] {
      LinesAppend(a[1..], b);
      assert (a + b)[1..] == a[1..] + b;
      assert (a + b)[0] == a[0];
      assert Lines(a + b) == a[0] + "\n" + Lines(a[1..] + b);
      assert Lines(a) == a[0] + "\n" + Lines(a[1..]);
    } else {
      assert a + b == b;
    }
  }

  /** Joining with newlines after appending an empty string ends every line with a newline. */
  lemma {:induction false} JoinTrailing(ms: seq<string>)
    ensures Join(ms + [""], "\n") == Lines(ms)
    decreases |ms|
  {
    if ms != [] {
      JoinTrailing(ms[1..]);
      assert (ms + [""])[1..] == ms[1..] + [""];
    }
  }

  /** The first separator of `a + [sep] + b`, when `a` holds none, is the one after `a`. */
  lemma {:induction false} IndexOfCharAfter(a: string, sep: char, b: string)
    requires sep !in a
    ensures IndexOfChar(a + [sep] + b, sep) == |a|
    decreases |a|
  {
    if a != [] {
      IndexOfCharAfter(a[1..], sep, b);
      assert (a + [sep] + b)[1..] == a[1..] + [sep] + b;
    }
  }

  /** The first separator of `a + t`, when `a` holds one, is the one in `a`. */
  lemma {:induction false} IndexOfCharWithin(a: string, sep: char, t: string)
    requires sep in a
    ensures IndexOfChar(a + t, sep) == IndexOfChar(a, sep)
    decreases |a|
  {
    if a[0] != sep {
      IndexOfCharWithin(a[1..], sep, t);
      assert (a + t)[1..] == a[1..] + t;
    }
  }

  /** Splitting at a separator splits both sides independently. */
  lemma {:induction false} SplitAround(a: string, sep: char, b: string)
    ensures Split(a + [sep] + b, sep) == Split(a, sep) + Split(b, sep)
    decreases |a|
  {
    var i := IndexOfChar(a, sep);
    if i >= 0 {
      SplitAround(a[i + 1..], sep, b);
      SplitAroundStep(a, sep, b, i);
    } else {
      IndexOfCharMeans(a, sep);
      SplitAfterPiece(a, sep, b);
    }
  }

  /** One step of `SplitAround`: the piece before the first separator of `a` comes off both sides. */
  lemma SplitAroundStep(a: string, sep: char, b: string, i: int)
    requires 0 <= i == IndexOfChar(a, sep)
    requires Split(a[i + 1..] + [sep] + b, sep) == Split(a[i + 1..], sep) + Split(b, sep)
    ensures Split(a + [sep] + b, sep) == Split(a, sep) + Split(b, sep)
  {
    var rest := a[i + 1..];
    SplitAtFirst(a, sep, b, i);
    assert Split(a, sep) == [a[..i]] + Split(rest, sep);
    ConsAssoc(a[..i], Split(rest, sep), Split(b, sep));
  }

  /** The first separator of `a` is the first of `a + [sep] + b`. */
  lemma SplitAtFirst(a: string, sep: char, b: string, i: int)
    requires 0 <= i == IndexOfChar(a, sep)
    ensures Split(a + [sep] + b, sep) == [a[..i]] + Split(a[i + 1..] + [sep] + b, sep)
  {
    var s := a + [sep] + b;
    assert IndexOfChar(s, sep) == i by {
      assert a[i] == sep && a[i] in a;
      assert s == a + ([sep] + b);
      IndexOfCharWithin(a, sep, [sep] + b);
    }
    SplitAt(s, sep, i);
    assert s[..i] == a[..i];
    assert s[i + 1..] == a[i + 1..] + [sep] + b;
  }

  lemma ConsAssoc(x: string, p: seq<string>, q: seq<string>)
    ensures [x] + (p + q) == ([x] + p) + q
  {
  }

  lemma SplitAfterPiece(a: string, sep: char, b: string)
    requires sep !in a
    ensures Split(a + [sep] + b, sep) == [a] + Split(b, sep)
  {
    var s := a + [sep] + b;
    IndexOfCharAfter(a, sep, b);
    assert s[..|a|] == a && s[|a| + 1..] == b;
  }

  /** Lines without newlines of their own split back into themselves, then the empty tail. */
  lemma {:induction false} SplitLines(ms: seq<string>)
    requires forall i :: 0 <= i < |ms| ==> '\n' !in ms[i]
    ensures Split(Lines(ms), '\n') == ms + [""]
    decreases |ms|
  {
    if ms != [] {
      SplitLines(ms[1..]);
      assert Lines(ms) == ms[0] + ['\n'] + Lines(ms[1..]);
      SplitAround(ms[0], '\n', Lines(ms[1..]));
      assert IndexOfChar(ms[0], '\n') == -1;
    }
  }

  // ---------------------------------------------------------------------
  // The lines a `.gitignore` already has

  /** The non-blank lines, trimmed. */
  function Trimmed(lines: seq<string>): set<string>
    decreases |lines|
  {
    if lines == [] then {}
    else
      var t := TrimSpace(lines[|lines| - 1]);
      Trimmed(lines[..|lines| - 1]) + (if t == "" then {} else {t})
  }

  /** Every non-blank line is present, trimmed. */
  lemma {:induction false} TrimmedHas(lines: seq<string>, i: nat)
    requires i < |lines| && TrimSpace(lines[i]) != ""
    ensures TrimSpace(lines[i]) in Trimmed(lines)
    decreases |lines|
  {
    var n := |lines| - 1;
    if i < n {
      TrimmedHas(lines[..n], i);
      assert lines[..n][i] == lines[i];
    }
  }

  /** Only trimmed non-blank lines are present. */
  lemma {:induction false} TrimmedFrom(lines: seq<string>, x: string)
    requires x in Trimmed(lines)
    ensures x != "" && exists i :: 0 <= i < |lines| && TrimSpace(lines[i]) == x
    decreases |lines|
  {
    var n := |lines| - 1;
    if x in Trimmed(lines[..n]) {
      TrimmedFrom(lines[..n], x);
      var i :| 0 <= i < n && TrimSpace(lines[..n][i]) == x;
      assert lines[i] == lines[..n][i];
    } else {
      assert TrimSpace(lines[n]) == x;
    }
  }

  /** `Header` and the entries are single lines with no surrounding space. */
  predicate IsPlainLine(e: string) {
    e != "" && !IsSpace(e[0]) && !IsSpace(e[|e| - 1]) && '\n' !in e
  }

  lemma PlainLines()
    ensures IsPlainLine(Header)
    ensures forall i :: 0 <= i < |Entries| ==> IsPlainLine(Entries[i])
  {
  }

  /** Plain lines are present as themselves. */
  lemma TrimmedPlain(lines: seq<string>, i: nat)
    requires i < |lines| && IsPlainLine(lines[i])
    ensures lines[i] in Trimmed(lines)
  {
    TrimSpaceOfNonBlankEdges(lines[i]);
    TrimmedHas(lines, i);
  }

  /** The trimmed, non-blank lines of `.gitignore` content. */
  function Present(existing: string): set<string> {
    Trimmed(Split(existing, '\n'))
  }

  // ---------------------------------------------------------------------
  // The entries to add

  /** The entries not yet present, in their declared order. */
  function MissingOf(present: set<string>, es: seq<string>): seq<string>
    decreases |es|
  {
    if es == [] then []
    else
      var n := |es| - 1;
      MissingOf(present, es[..n]) + (if es[n] in present then [] else [es[n]])
  }

  /** Exactly the entries that are not present are missing. */
  lemma {:induction false} MissingOfMeans(present: set<string>, es: seq<string>)
    ensures forall x :: x in MissingOf(present, es) <==> x in es && x !in present
    decreases |es|
  {
    if es != [] {
      var n := |es| - 1;
      MissingOfMeans(present, es[..n]);
      assert es == es[..n] + [es[n]];
    }
  }

  /** The position of the first `x` in `s`. */
  function IndexIn(s: seq<string>, x: string): (k: nat)
    requires x in s
    ensures k < |s| && s[k] == x
    ensures forall j :: 0 <= j < k ==> s[j] != x
  {
    if s[0] == x then 0 else 1 + IndexIn(s[1..], x)
  }

  lemma {:induction false} IndexInPrefix(s: seq<string>, n: nat, x: string)
    requires n <= |s| && x in s[..n]
    ensures IndexIn(s, x) == IndexIn(s[..n], x)
    decreases n
  {
    if s[0] != x {
      assert s[..n][0] == s[0];
      assert s[..n][1..] == s[1..][..n - 1];
      IndexInPrefix(s[1..], n - 1, x);
    }
  }

  predicate Distinct(s: seq<string>) {
    forall i, j :: 0 <= i < j < |s| ==> s[i] != s[j]
  }

  /** In a sequence without repeats, the last element's position is the last. */
  lemma IndexOfLast(s: seq<string>)
    requires s != [] && Distinct(s)
    ensures IndexIn(s, s[|s| - 1]) == |s| - 1
  {
  }

  /** Of distinct elements, one before the last comes first. */
  lemma BeforeLast(es: seq<string>, x: string)
    requires es != [] && Distinct(es) && x in es[..|es| - 1]
    ensures IndexIn(es, x) < IndexIn(es, es[|es| - 1])
  {
    IndexInPrefix(es, |es| - 1, x);
    IndexOfLast(es);
  }

  /** `x` and `y` both occur in `s`, `x` first. */
  predicate Before(s: seq<string>, x: string, y: string) {
    x in s && y in s && IndexIn(s, x) < IndexIn(s, y)
  }

  /** Two missing entries keep the order in which they are declared. */
  lemma {:induction false} MissingPairInOrder(present: set<string>, es: seq<string>, i: nat, j: nat)
    requires Distinct(es) && i < j < |MissingOf(present, es)|
    ensures Before(es, MissingOf(present, es)[i], MissingOf(present, es)[j])
    decreases |es|
  {
    var n := |es| - 1;
    var m0 := MissingOf(present, es[..n]);
    MissingOfMeans(present, es[..n]);
    assert es == es[..n] + [es[n]];
    var m := MissingOf(present, es);
    assert m == m0 + (if es[n] in present then [] else [es[n]]);
    assert m[i] == m0[i] && m0[i] in es[..n];
    if j < |m0| {
      MissingPairInOrder(present, es[..n], i, j);
      assert m[j] == m0[j];
      IndexInPrefix(es, n, m[i]);
      IndexInPrefix(es, n, m[j]);
    } else {
      assert m[j] == es[n];
      BeforeLast(es, m[i]);
    }
  }

  /** Missing entries keep the order in which the entries are declared. */
  lemma MissingInOrder(present: set<string>, es: seq<string>)
    requires Distinct(es)
    ensures forall i, j :: 0 <= i < j < |MissingOf(present, es)| ==>
      Before(es, MissingOf(present, es)[i], MissingOf(present, es)[j])
  {
    forall i, j | 0 <= i < j < |MissingOf(present, es)|
      ensures Before(es, MissingOf(present, es)[i], MissingOf(present, es)[j])
    {
      MissingPairInOrder(present, es, i, j);
    }
  }

  // ---------------------------------------------------------------------
  // `ensureGitignore`

  /** What reading `.gitignore` gave. */
  datatype GitignoreFile = Contents(text: string) | NotExist | ReadFailed(err: Error)

  /** What `ensureGitignore` does: write `content` to `path`, leave the file alone, or fail. */
  datatype Outcome = Write(path: string, content: string, mode: nat) | Unchanged | Failed(err: Error)

  /** A fresh `.gitignore`: the header and every entry, one per line. */
  function FreshContent(): string {
    Join([Header] + Entries + [""], "\n")
  }

  /** The separator between the existing content and what is added: a newline if one is missing. */
  function Gap(existing: string): string {
    if existing != "" && !HasSuffix(existing, "\n") then "\n" else ""
  }

  /** The lines added: the header unless present, then the missing entries. */
  function Added(present: set<string>, missing: seq<string>): seq<string> {
    (if Header in present then [] else [Header]) + missing
  }

  /** The existing content, a blank line, then the added lines. */
  function Appended(existing: string, added: seq<string>): string {
    existing + Gap(existing) + "\n" + Lines(added)
  }

  /** The new content for an existing `.gitignore`, or `None` when no entry is missing. */
  function Update(existing: string): Option<string> {
    var present := Present(existing);
    var missing := MissingOf(present, Entries);
    if missing == [] then None else Some(Appended(existing, Added(present, missing)))
  }

  /** `ensureGitignore(root)` given what reading the file gave. */
  function Gitignore(root: string, file: GitignoreFile): Outcome {
    var path := Paths.Join2(root, ".gitignore");
    match file
    case NotExist => Write(path, FreshContent(), ModeDefault)
    case ReadFailed(e) => Failed(e)
    case Contents(existing) =>
      match Update(existing)
      case None => Unchanged
      case Some(content) => Write(path, content, ModeDefault)
  }

  /** The lines of `existing` without the empty piece after a final newline. */
  function ExistingLines(existing: string): seq<string> {
    var parts := Split(existing, '\n');
    if existing == "" then []
    else if HasSuffix(existing, "\n") then parts[..|parts| - 1]
    else parts
  }

  /** A fresh file holds the header and the four entries, each on its own line. */
  lemma FreshContentLines()
    ensures FreshContent() == Lines([Header] + Entries)
  {
    JoinTrailing([Header] + Entries);
  }

  /** The existing lines begin the split of the existing text; what follows them is empty. */
  lemma ExistingLinesPrefix(existing: string)
    ensures var sp := Split(existing, '\n');
      var e := ExistingLines(existing);
      |e| <= |sp| && e == sp[..|e|] && forall i :: |e| <= i < |sp| ==> sp[i] == ""
  {
    var sp := Split(existing, '\n');
    if existing == "" {
      assert sp == [""];
    } else if HasSuffix(existing, "\n") {
      var x := existing[..|existing| - 1];
      assert existing == x + ['\n'] + "";
      SplitAround(x, '\n', "");
      assert Split("", '\n') == [""];
    }
  }

  /** The updated text when the existing text is empty: a blank line, then the added lines. */
  lemma AppendedToEmpty(added: seq<string>)
    requires forall i :: 0 <= i < |added| ==> '\n' !in added[i]
    ensures Split(Appended("", added), '\n') == [""] + added + [""]
  {
    SplitLines(added);
    assert Appended("", added) == "" + ['\n'] + Lines(added);
    SplitAround("", '\n', Lines(added));
  }

  /** The updated text when the existing text ends with a newline. */
  lemma AppendedAfterNewline(existing: string, added: seq<string>)
    requires existing != "" && HasSuffix(existing, "\n")
    requires forall i :: 0 <= i < |added| ==> '\n' !in added[i]
    ensures Split(Appended(existing, added), '\n') == ExistingLines(existing) + [""] + added + [""]
  {
    var x := existing[..|existing| - 1];
    var body := Lines(added);
    AfterNewlineShape(existing, added);
    SplitAround(x, '\n', "");
    SplitEmpty('\n');
    ExistingAfterNewline(existing, Split(x, '\n'));
    SplitLines(added);
    SplitAround(existing, '\n', body);
    PartsAssoc(Split(x, '\n'), added);
  }

  /** Text ending in a newline is its first part, that newline and nothing; the update adds one more. */
  lemma AfterNewlineShape(existing: string, added: seq<string>)
    requires existing != "" && HasSuffix(existing, "\n")
    ensures existing == existing[..|existing| - 1] + ['\n'] + ""
    ensures Appended(existing, added) == existing + ['\n'] + Lines(added)
  {
  }

  /** The existing lines of text ending in a newline drop the empty piece after it. */
  lemma ExistingAfterNewline(existing: string, front: seq<string>)
    requires existing != "" && HasSuffix(existing, "\n")
    requires Split(existing, '\n') == front + [""]
    ensures ExistingLines(existing) == front
  {
    assert (front + [""])[..|front|] == front;
  }

  lemma PartsAssoc(e: seq<string>, added: seq<string>)
    ensures (e + [""]) + (added + [""]) == e + [""] + added + [""]
  {
  }

  /** A leading separator splits off an empty piece. */
  lemma SplitLeading(sep: char, b: string)
    ensures Split([sep] + b, sep) == [""] + Split(b, sep)
  {
    assert ([sep] + b)[..0] == "" && ([sep] + b)[1..] == b;
  }

  /** The text added after content that lacks a final newline, whose lines are all of its pieces. */
  lemma AppendedAfterTextShape(existing: string, added: seq<string>)
    requires existing != "" && !HasSuffix(existing, "\n")
    ensures Appended(existing, added) == existing + ['\n'] + (['\n'] + Lines(added))
    ensures ExistingLines(existing) == Split(existing, '\n')
  {
  }

  /** The updated text when the existing text lacks a final newline. */
  lemma AppendedAfterText(existing: string, added: seq<string>)
    requires existing != "" && !HasSuffix(existing, "\n")
    requires forall i :: 0 <= i < |added| ==> '\n' !in added[i]
    ensures Split(Appended(existing, added), '\n') == ExistingLines(existing) + [""] + added + [""]
  {
    var body := Lines(added);
    SplitLines(added);
    SplitLeading('\n', body);
    AppendedAfterTextShape(existing, added);
    SplitAround(existing, '\n', ['\n'] + body);
    SeqAssoc(Split(existing, '\n'), added);
  }

  lemma SeqAssoc(e: seq<string>, added: seq<string>)
    ensures e + ([""] + (added + [""])) == e + [""] + added + [""]
  {
  }

  /**
   * The updated file's lines are the existing lines, one blank line, then the
   * added lines, and the file ends with a newline; its text begins with the
   * existing text unchanged.
   */
  lemma AppendedLines(existing: string, added: seq<string>)
    requires forall i :: 0 <= i < |added| ==> '\n' !in added[i]
    ensures HasPrefix(Appended(existing, added), existing)
    ensures Split(Appended(existing, added), '\n') == ExistingLines(existing) + [""] + added + [""]
  {
    assert Appended(existing, added)[..|existing|] == existing;
    if existing == "" {
      AppendedToEmpty(added);
    } else if HasSuffix(existing, "\n") {
      AppendedAfterNewline(existing, added);
    } else {
      AppendedAfterText(existing, added);
    }
  }

  /** Every line the existing file had is still present after the update, and so is every added line. */
  lemma AppendedPresent(existing: string, added: seq<string>)
    requires forall i :: 0 <= i < |added| ==> IsPlainLine(added[i])
    ensures Present(existing) <= Present(Appended(existing, added))
    ensures forall i :: 0 <= i < |added| ==> added[i] in Present(Appended(existing, added))
  {
    AppendedLines(existing, added);
    ExistingLinesPrefix(existing);
    TrimmedAfter(Split(existing, '\n'), ExistingLines(existing), added, Split(Appended(existing, added), '\n'));
  }

  /**
   * Lines `e + [""] + added + [""]`, where `e` is `sp` without some blank
   * lines at its end, keep every trimmed line of `sp` and every added line.
   */
  lemma TrimmedAfter(sp: seq<string>, e: seq<string>, added: seq<string>, out: seq<string>)
    requires |e| <= |sp| && e == sp[..|e|] && forall i :: |e| <= i < |sp| ==> sp[i] == ""
    requires out == e + [""] + added + [""]
    requires forall i :: 0 <= i < |added| ==> IsPlainLine(added[i])
    ensures Trimmed(sp) <= Trimmed(out)
    ensures forall i :: 0 <= i < |added| ==> added[i] in Trimmed(out)
  {
    forall x | x in Trimmed(sp)
      ensures x in Trimmed(out)
    {
      TrimmedKept(sp, e, added, out, x);
    }
    forall i | 0 <= i < |added|
      ensures added[i] in Trimmed(out)
    {
      assert out[|e| + 1 + i] == added[i];
      TrimmedPlain(out, |e| + 1 + i);
    }
  }

  lemma TrimmedKept(sp: seq<string>, e: seq<string>, added: seq<string>, out: seq<string>, x: string)
    requires |e| <= |sp| && e == sp[..|e|] && forall i :: |e| <= i < |sp| ==> sp[i] == ""
    requires out == e + [""] + added + [""]
    requires x in Trimmed(sp)
    ensures x in Trimmed(out)
  {
    TrimmedFrom(sp, x);
    var i :| 0 <= i < |sp| && TrimSpace(sp[i]) == x;
    assert i < |e| && out[i] == e[i] == sp[i];
    TrimmedHas(out, i);
  }

  /**
   * The lines added to an existing file: the header first exactly when it is
   * not present, then every entry that is not present and no other.
   */
  lemma AddedMeans(present: set<string>)
    ensures var a := Added(present, MissingOf(present, Entries));
      && (Header in a <==> Header !in present)
      && (Header in a ==> a[0] == Header)
      && (forall x :: x in a && x != Header ==> x in Entries && x !in present)
      && (forall x :: x in Entries && x !in present ==> x in a)
  {
    MissingOfMeans(present, Entries);
    HeaderNotEntry();
  }

  lemma HeaderNotEntry()
    ensures Header !in Entries
  {
  }

  /** The entries among the added lines come in the order they are declared. */
  lemma AddedInOrder(present: set<string>)
    ensures var a := Added(present, MissingOf(present, Entries));
      forall i, j :: 0 <= i < j < |a| && a[i] != Header ==> Before(Entries, a[i], a[j])
  {
    var m := MissingOf(present, Entries);
    var a := Added(present, m);
    EntriesDistinct();
    MissingInOrder(present, Entries);
    if Header !in present {
      assert a == [Header] + m;
      forall i, j | 0 <= i < j < |a| && a[i] != Header
        ensures Before(Entries, a[i], a[j])
      {
        assert i > 0;
        assert a[i] == m[i - 1] && a[j] == m[j - 1];
      }
    } else {
      assert a == m;
    }
  }

  /** The added lines are plain lines. */
  lemma AddedPlain(present: set<string>)
    ensures var a := Added(present, MissingOf(present, Entries));
      forall i :: 0 <= i < |a| ==> IsPlainLine(a[i])
  {
    PlainLines();
    MissingOfMeans(present, Entries);
    var a := Added(present, MissingOf(present, Entries));
    forall i | 0 <= i < |a|
      ensures IsPlainLine(a[i])
    {
      if a[i] != Header {
        assert a[i] in a;
      }
    }
  }

  lemma EntriesDistinct()
    ensures Distinct(Entries)
  {
  }

  /** No entry is missing once all are present. */
  lemma {:induction false} MissingNone(present: set<string>, es: seq<string>)
    requires forall i :: 0 <= i < |es| ==> es[i] in present
    ensures MissingOf(present, es) == []
    decreases |es|
  {
    if es != [] {
      MissingNone(present, es[..|es| - 1]);
    }
  }

  /** A fresh file has the header and every entry. */
  lemma FreshPresent()
    ensures Header in Present(FreshContent())
    ensures forall i :: 0 <= i < |Entries| ==> Entries[i] in Present(FreshContent())
  {
    PlainLines();
    var all := [Header] + Entries;
    FreshContentLines();
    SplitLines(all);
    var sp := Split(FreshContent(), '\n');
    assert sp == all + [""];
    TrimmedPlain(sp, 0);
    forall i | 0 <= i < |Entries|
      ensures Entries[i] in Trimmed(sp)
    {
      assert sp[i + 1] == Entries[i];
      TrimmedPlain(sp, i + 1);
    }
  }

  /** An updated file has the header, every entry and every line it had before. */
  lemma UpdatePresent(existing: string)
    requires Update(existing).Some?
    ensures var after := Update(existing).value;
      && Header in Present(after)
      && (forall i :: 0 <= i < |Entries| ==> Entries[i] in Present(after))
      && Present(existing) <= Present(after)
  {
    var present := Present(existing);
    var a := Added(present, MissingOf(present, Entries));
    AddedMeans(present);
    AddedPlain(present);
    AppendedPresent(existing, a);
    var after := Update(existing).value;
    forall i | 0 <= i < |Entries|
      ensures Entries[i] in Present(after)
    {
      if Entries[i] !in present {
        assert Entries[i] in a;
        var k :| 0 <= k < |a| && a[k] == Entries[i];
      }
    }
    if Header !in present {
      assert a[0] == Header;
    }
  }

  /**
   * A second run changes nothing: after an update, or in a fresh file, the
   * header and every entry are present.
   */
  lemma GitignoreIdempotent(root: string, file: GitignoreFile)
    requires Gitignore(root, file).Write?
    ensures var after := Gitignore(root, file).content;
      Header in Present(after) && Gitignore(root, Contents(after)) == Unchanged
  {
    var after := Gitignore(root, file).content;
    if file.NotExist? {
      FreshPresent();
    } else {
      UpdatePresent(file.text);
    }
    MissingNone(Present(after), Entries);
  }

  /**
   * A missing file gets the fresh content and a failed read is passed on.
   * An existing file is left alone exactly when every entry is already one
   * of its lines, spaces around it allowed; otherwise the added lines follow
   * its content.
   */
  lemma GitignoreMeans(root: string, file: GitignoreFile)
    ensures file.NotExist? ==> Gitignore(root, file) == Write(Paths.Join2(root, ".gitignore"), FreshContent(), ModeDefault)
    ensures file.ReadFailed? ==> Gitignore(root, file) == Failed(file.err)
    ensures file.Contents? ==>
      (Gitignore(root, file) == Unchanged <==> forall i :: 0 <= i < |Entries| ==> Entries[i] in Present(file.text))
    ensures file.Contents? && Gitignore(root, file).Write? ==>
      var present := Present(file.text);
      Gitignore(root, file) == Write(Paths.Join2(root, ".gitignore"),
        Appended(file.text, Added(present, MissingOf(present, Entries))), ModeDefault)
  {
    if file.Contents? {
      var present := Present(file.text);
      MissingOfMeans(present, Entries);
      var m := MissingOf(present, Entries);
      if m != [] {
        assert m[0] in m;
      } else {
        assert forall i :: 0 <= i < |Entries| ==> Entries[i] in Entries;
      }
    }
  }

  /** The first loop of `ensureGitignore`: the trimmed non-blank lines. */
  method CollectPresent(lines: seq<string>) returns (present: set<string>)
    ensures present == Trimmed(lines)
  {
    present := {};
    for i := 0 to |lines|
      invariant present == Trimmed(lines[..i])
    {
      assert lines[..i + 1][..i] == lines[..i];
      var trimmed := TrimSpace(lines[i]);
      if trimmed != "" {
        present := present + {trimmed};
      }
    }
    assert lines[..|lines|] == lines;
  }

  /** The second loop: the entries not present, in order. */
  method CollectMissing(present: set<string>) returns (missing: seq<string>)
    ensures missing == MissingOf(present, Entries)
  {
    missing := [];
    for i := 0 to |Entries|
      invariant missing == MissingOf(present, Entries[..i])
    {
      assert Entries[..i + 1][..i] == Entries[..i];
      if Entries[i] !in present {
        missing := missing + [Entries[i]];
      }
    }
    assert Entries[..|Entries|] == Entries;
  }

  /** The builder: the existing text, a newline if missing, a blank line, the header if absent, the entries. */
  method BuildUpdate(existing: string, present: set<string>, missing: seq<string>) returns (out: string)
    ensures out == Appended(existing, Added(present, missing))
  {
    out := existing;
    if existing != "" && !HasSuffix(existing, "\n") {
      out := out + "\n";
    }
    out := out + "\n";
    if Header !in present {
      out := out + Header + "\n";
    }
    out := WriteLines(out, missing);
    LinesAppend(if Header in present then [] else [Header], missing);
  }

  /** The loop of the builder: each line written, then a newline. */
  method WriteLines(start: string, ms: seq<string>) returns (out: string)
    ensures out == start + Lines(ms)
  {
    out := start;
    for i := 0 to |ms|
      invariant out == start + Lines(ms[..i])
    {
      LinesAppend(ms[..i], [ms[i]]);
      assert ms[..i + 1] == ms[..i] + [ms[i]];
      out := out + ms[i] + "\n";
    }
    assert ms[..|ms|] == ms;
  }

  /** `ensureGitignore`. */
  method EnsureGitignore(root: string, file: GitignoreFile) returns (o: Outcome)
    ensures o == Gitignore(root, file)
  {
    var path := Paths.Join2(root, ".gitignore");
    if file.ReadFailed? {
      return Failed(file.err);
    }
    if file.NotExist? {
      return Write(path, Join([Header] + Entries + [""], "\n"), ModeDefault);
    }
    var existing := file.text;
    var present := CollectPresent(Split(existing, '\n'));
    var missing := CollectMissing(present);
    if |missing| == 0 {
      return Unchanged;
    }
    var out := BuildUpdate(existing, present, missing);
    return Write(path, out, ModeDefault);
  }

  // ---------------------------------------------------------------------
  // Templates

  /** A walked entry of the embedded `templates` tree, in walk order. */
  datatype Template = Template(path: string, isDir: bool, data: seq<byte>)

  /** A template to write to `dst`. */
  datatype TemplateWrite = TemplateWrite(dst: string, data: seq<byte>, mode: nat)

  /** Files whose relative path mentions secrets, in any case, are private to the owner. */
  function Mode(rel: string): (m: nat)
    ensures m == ModeSecret <==> Contains(ToLower(rel), "secrets")
    ensures m == ModeSecret || m == ModeDefault
  {
    if Contains(ToLower(rel), "secrets") then ModeSecret else ModeDefault
  }

  /** Paths differing only in the case of ASCII letters get the same mode. */
  lemma ModeIgnoresCase(a: string, b: string)
    requires EqualFold(a, b)
    ensures Mode(a) == Mode(b)
  {
  }

  /** The relative path of a template: its path under `templates/`. */
  function Relative(t: Template): string {
    TrimPrefix(t.path, "templates/")
  }

  /** The callback of the walk: directories and existing files (unless forced) are skipped. */
  function TemplateStep(root: string, force: bool, exists_: string -> bool, t: Template): Option<TemplateWrite> {
    if t.isDir then None
    else
      var dst := Paths.Join2(root, Relative(t));
      if !force && exists_(dst) then None
      else Some(TemplateWrite(dst, t.data, Mode(Relative(t))))
  }

  /** The writes of the walk, in walk order. */
  function TemplateWrites(root: string, force: bool, exists_: string -> bool, ts: seq<Template>): seq<TemplateWrite>
    decreases |ts|
  {
    if ts == [] then []
    else
      var n := |ts| - 1;
      var step := TemplateStep(root, force, exists_, ts[n]);
      TemplateWrites(root, force, exists_, ts[..n]) + (if step.Some? then [step.value] else [])
  }

  /**
   * A file template is written exactly when `force` is set or its target does
   * not exist yet, with its own data and the mode its path calls for; nothing
   * else is written.
   */
  lemma {:induction false} TemplateWritesMeans(root: string, force: bool, exists_: string -> bool, ts: seq<Template>)
    ensures forall t :: t in ts && !t.isDir && (force || !exists_(Paths.Join2(root, Relative(t)))) ==>
      TemplateWrite(Paths.Join2(root, Relative(t)), t.data, Mode(Relative(t))) in TemplateWrites(root, force, exists_, ts)
    ensures forall w :: w in TemplateWrites(root, force, exists_, ts) ==>
      exists t :: (t in ts && !t.isDir && w.dst == Paths.Join2(root, Relative(t))
                   && (force || !exists_(w.dst)) && w.data == t.data && w.mode == Mode(Relative(t)))
    decreases |ts|
  {
    if ts != [] {
      var n := |ts| - 1;
      TemplateWritesMeans(root, force, exists_, ts[..n]);
      assert ts == ts[..n] + [ts[n]];
      var ws := TemplateWrites(root, force, exists_, ts);
      forall w | w in ws
        ensures exists t :: (t in ts && !t.isDir && w.dst == Paths.Join2(root, Relative(t))
                             && (force || !exists_(w.dst)) && w.data == t.data && w.mode == Mode(Relative(t)))
      {
        if w !in TemplateWrites(root, force, exists_, ts[..n]) {
          assert ts[n] in ts;
        } else {
          var t :| (t in ts[..n] && !t.isDir && w.dst == Paths.Join2(root, Relative(t))
                    && (force || !exists_(w.dst)) && w.data == t.data && w.mode == Mode(Relative(t)));
          assert t in ts;
        }
      }
    }
  }

  /** `Init`'s walk over the templates under the cleaned root, collecting the writes. */
  method WriteTemplates(root: string, force: bool, exists_: string -> bool, ts: seq<Template>) returns (ws: seq<TemplateWrite>)
    ensures ws == TemplateWrites(Paths.Clean(root), force, exists_, ts)
  {
    var r := Paths.Clean(root);
    ws := [];
    for i := 0 to |ts|
      invariant ws == TemplateWrites(r, force, exists_, ts[..i])
    {
      assert ts[..i + 1][..i] == ts[..i];
      var t := ts[i];
      if !t.isDir {
        var rel := TrimPrefix(t.path, "templates/");
        var dst := Paths.Join2(r, rel);
        if force || !exists_(dst) {
          var mode := ModeDefault;
          if Contains(ToLower(rel), "secrets") {
            mode := ModeSecret;
          }
          ws := ws + [TemplateWrite(dst, t.data, mode)];
        }
      }
    }
    assert ts[..|ts|] == ts;
  }
}
