/** What the init container's shell makes of its command lines: words and commands, as far as the text
    uses no quoting or expansion (sections 2.2 and 2.3 of the POSIX Shell Command Language). */
module Shell {
  import opened Text
  import opened Mounts
  import opened Plans
  import opened Converters

  predicate Blank(c: char) {
    c == ' ' || c == '\t'
  }

  /** Characters that mean something else than themselves anywhere in a word. */
  predicate Special(c: char) {
    c in {'|', '&', ';', '<', '>', '(', ')', '$', '`', '\\', '"', '\'', '*', '?', '[', '\n'}
  }

  /** The words of a text, cut at blanks. */
  function Cut(text: string): seq<string> {
    if text == "" then [""]
    else
      var rest := Cut(text[1..]);
      if Blank(text[0]) then [""] + rest else [[text[0]] + rest[0]] + rest[1..]
  }

  function DropEmpty(words: seq<string>): seq<string> {
    if words == [] then [] else (if words[0] == "" then [] else [words[0]]) + DropEmpty(words[1..])
  }

  /** A number sign starts a comment and a tilde an expansion, but only at the front of a word. */
  predicate Literal(word: string) {
    word == "" || (word[0] != '#' && word[0] != '~')
  }

  /** The command a line stands for; None when it is more than a list of literal words. */
  function Command(line: string): Option<seq<string>> {
    var words := DropEmpty(Cut(line));
    if exists i :: 0 <= i < |line| && Special(line[i]) then None
    else if exists i :: 0 <= i < |words| && !Literal(words[i]) then None
    else Some(words)
  }

  /** The text is one literal part of a word wherever it stands behind the front of one. */
  predicate Plain(text: string) {
    forall i :: 0 <= i < |text| ==> !Special(text[i]) && !Blank(text[i])
  }

  predicate NoBlank(text: string) {
    forall i :: 0 <= i < |text| ==> !Blank(text[i])
  }

  lemma {:induction false} CutWord(word: string)
    requires NoBlank(word)
    ensures Cut(word) == [word]
  {
    if word != "" {
      CutWord(word[1..]);
      assert [word[0]] + word[1..] == word;
    }
  }

  lemma {:induction false} CutBehind(word: string, rest: string)
    requires NoBlank(word)
    ensures Cut(word + " " + rest) == [word] + Cut(rest)
  {
    var text := word + " " + rest;
    if word == "" {
      assert text[1..] == rest && Blank(text[0]);
    } else {
      assert text[1..] == word[1..] + " " + rest;
      CutBehind(word[1..], rest);
      assert [word[0]] + word[1..] == word;
    }
  }

  lemma {:induction false} CutHasNoBlank(text: string)
    ensures forall k :: 0 <= k < |Cut(text)| ==> NoBlank(Cut(text)[k])
  {
    if text != "" {
      CutHasNoBlank(text[1..]);
    }
  }

  lemma {:induction false} DropEmptyKeeps(words: seq<string>)
    ensures forall w :: w in DropEmpty(words) ==> w in words
  {
    if words != [] {
      DropEmptyKeeps(words[1..]);
    }
  }

  lemma DropEmptyFront(word: string, words: seq<string>)
    requires word != ""
    ensures DropEmpty([word] + words) == [word] + DropEmpty(words)
  {
    assert ([word] + words)[1..] == words;
  }

  // ---------- the directories that are made

  function Directory(vol: string, sub: string): string {
    "/work/" + vol + "/" + sub
  }

  function MkdirWords(path: string): seq<string> {
    ["mkdir", "-m", "1777", "-p", path]
  }

  lemma MkdirCut(path: string)
    ensures DropEmpty(Cut("mkdir -m 1777 -p " + path)) == ["mkdir", "-m", "1777", "-p"] + DropEmpty(Cut(path))
  {
    hide Cut, DropEmpty;
    var t1 := "-p" + " " + path;
    var t2 := "1777" + " " + t1;
    var t3 := "-m" + " " + t2;
    assert "mkdir -m 1777 -p " + path == "mkdir" + " " + t3;
    CutBehind("mkdir", t3);
    CutBehind("-m", t2);
    CutBehind("1777", t1);
    CutBehind("-p", path);
    DropEmptyFront("mkdir", Cut(t3));
    DropEmptyFront("-m", Cut(t2));
    DropEmptyFront("1777", Cut(t1));
    DropEmptyFront("-p", Cut(path));
  }

  lemma PlainParts(vol: string, sub: string)
    ensures Plain(Directory(vol, sub)) <==> Plain(vol) && Plain(sub)
  {
    hide Special, Blank;
    var path := Directory(vol, sub);
    assert Plain("/work/") && Plain("/") by { PlainFront(); }
    assert forall i :: 0 <= i < |vol| ==> path[6 + i] == vol[i];
    assert forall i :: 0 <= i < |sub| ==> path[7 + |vol| + i] == sub[i];
    forall i | 0 <= i < |path| && Plain(vol) && Plain(sub) ensures !Special(path[i]) && !Blank(path[i]) {
      assert path[i] == if i < 6 then "/work/"[i] else if i < 6 + |vol| then vol[i - 6]
                        else if i == 6 + |vol| then "/"[0] else sub[i - 7 - |vol|];
    }
  }

  lemma PlainFront()
    ensures Plain("/work/") && Plain("/") && Plain("mkdir") && Plain("-m") && Plain("1777") && Plain("-p")
  {
  }

  /** The line makes exactly the mounted directory if and only if volume and sub-path are plain. */
  lemma MkdirExactly(vol: string, sub: string)
    ensures Command(MkdirLine(vol, sub)) == Some(MkdirWords(Directory(vol, sub))) <==> Plain(vol) && Plain(sub)
  {
    hide Cut, DropEmpty, Special, Blank;
    var path := Directory(vol, sub);
    var front := "mkdir -m 1777 -p ";
    var line := MkdirLine(vol, sub);
    assert line == front + path;
    MkdirCut(path);
    PlainParts(vol, sub);
    FrontHasNoSpecial();
    assert forall i :: 0 <= i < |path| ==> line[|front| + i] == path[i];
    if Plain(path) {
      CutWord(path);
      DropEmptyFront(path, []);
      assert [path] + [] == [path];
      assert DropEmpty([]) == [] by { NothingDropped(); }
      assert DropEmpty(Cut(line)) == MkdirWords(path);
      assert forall i :: 0 <= i < |line| ==> line[i] == if i < |front| then front[i] else path[i - |front|];
    } else if forall i :: 0 <= i < |path| ==> !Special(path[i]) {
      CutHasNoBlank(path);
      DropEmptyKeeps(Cut(path));
      assert !NoBlank(path);
      assert path !in DropEmpty(Cut(path));
      assert MkdirWords(path) == ["mkdir", "-m", "1777", "-p"] + [path];
      assert path in [path];
      assert path in MkdirWords(path) && path !in ["mkdir", "-m", "1777", "-p"] by { PathIsNoOption(vol, sub); }
    } else {
      var i :| 0 <= i < |path| && Special(path[i]);
      assert Special(line[|front| + i]);
    }
  }

  lemma PathIsNoOption(vol: string, sub: string)
    ensures && Directory(vol, sub) !in ["mkdir", "-m", "1777", "-p"]
            && Directory(vol, sub) in MkdirWords(Directory(vol, sub))
  {
    assert Directory(vol, sub)[0] == '/';
    assert MkdirWords(Directory(vol, sub))[4] == Directory(vol, sub);
  }

  lemma NothingDropped()
    ensures DropEmpty([]) == []
  {
  }

  lemma FrontHasNoSpecial()
    ensures forall i :: 0 <= i < |"mkdir -m 1777 -p "| ==> !Special("mkdir -m 1777 -p "[i])
  {
  }

  /** A blank is enough to miss the mounted directory: two others are made. */
  lemma BlankMakesTwo(vol: string)
    requires Plain(vol)
    ensures Command(MkdirLine(vol, "a b")) == Some(["mkdir", "-m", "1777", "-p", Directory(vol, "a"), "b"])
  {
    hide Cut, DropEmpty, Special, Blank;
    var path, a := Directory(vol, "a b"), Directory(vol, "a");
    var front := "mkdir -m 1777 -p ";
    var line := MkdirLine(vol, "a b");
    assert line == front + path && path == a + " " + "b";
    MkdirCut(path);
    PlainLetters();
    PlainParts(vol, "a");
    CutBehind(a, "b");
    CutWord("b");
    DropEmptyFront(a, ["b"]);
    DropEmptyFront("b", []);
    NothingDropped();
    assert ["b"] + [] == ["b"];
    assert ["mkdir", "-m", "1777", "-p"] + ([a] + ["b"]) == ["mkdir", "-m", "1777", "-p", a, "b"];
    FrontHasNoSpecial();
    assert forall i :: 0 <= i < |line| ==>
             line[i] == if i < |front| then front[i] else if i < |front| + |a| then a[i - |front|]
                        else " b"[i - |front| - |a|];
  }

  lemma PlainLetters()
    ensures Plain("a") && Plain("b") && !Special(' ')
  {
  }

  // ---------- the whole script

  /** The commands of a script without special characters, line by line. */
  function Commands(script: string): seq<Option<seq<string>>> {
    var lines := Split(script, '\n');
    seq(|lines|, i requires 0 <= i < |lines| => Command(lines[i]))
  }

  lemma PlainLine(vol: string, sub: string)
    requires Plain(vol) && Plain(sub)
    ensures Free(MkdirLine(vol, sub), '\n')
  {
    hide Special, Blank;
    var path := Directory(vol, sub);
    var front := "mkdir -m 1777 -p ";
    var line := MkdirLine(vol, sub);
    PlainParts(vol, sub);
    FrontHasNoSpecial();
    assert line == front + path;
    NewlineIsSpecial();
    forall i | 0 <= i < |line| ensures line[i] != '\n' {
      assert line[i] == if i < |front| then front[i] else path[i - |front|];
    }
  }

  lemma NewlineIsSpecial()
    ensures Special('\n')
  {
  }

  /** Main result on the init container: while all recorded sub-paths are plain, its script makes the
      mounted directory of every one of them, and does nothing else. */
  lemma ScriptMakes(m: SubPaths, init: InitContainer)
    requires InitFor(m, Some(init)) && init.lines != []
    requires forall vol, sub :: Records(m, vol, sub) ==> Plain(vol) && Plain(sub)
    ensures forall cmd :: cmd in Commands(Join(init.lines, '\n')) <==>
              exists vol, sub :: Records(m, vol, sub) && cmd == Some(MkdirWords(Directory(vol, sub)))
  {
    hide Plain, Records, Command, MkdirLine, MkdirWords, Directory, WorkMountsFor, Split, Join;
    var lines := init.lines;
    forall k | 0 <= k < |lines| ensures Free(lines[k], '\n') {
      assert lines[k] in lines;
      var vol, sub :| Records(m, vol, sub) && lines[k] == MkdirLine(vol, sub);
      PlainLine(vol, sub);
    }
    SplitJoin(lines, '\n');
    var commands := Commands(Join(lines, '\n'));
    assert |commands| == |lines| && forall k :: 0 <= k < |lines| ==> commands[k] == Command(lines[k]);
    forall cmd
      ensures cmd in commands <==>
              exists vol, sub :: Records(m, vol, sub) && cmd == Some(MkdirWords(Directory(vol, sub)))
    {
      if cmd in commands {
        var k :| 0 <= k < |lines| && cmd == Command(lines[k]);
        assert lines[k] in lines;
        var vol, sub :| Records(m, vol, sub) && lines[k] == MkdirLine(vol, sub);
        MkdirExactly(vol, sub);
      }
      if exists vol, sub :: Records(m, vol, sub) && cmd == Some(MkdirWords(Directory(vol, sub))) {
        var vol, sub :| Records(m, vol, sub) && cmd == Some(MkdirWords(Directory(vol, sub)));
        RecordedVolume(m, vol, sub);
        MkdirExactly(vol, sub);
        assert MkdirLine(vol, sub) in lines;
      }
    }
  }

  lemma RecordedVolume(m: SubPaths, vol: string, sub: string)
    requires Records(m, vol, sub)
    ensures vol in m.Keys
  {
  }

  /** An init container is only planned for recorded sub-paths, so it has lines. */
  lemma PlannedLines(c: Converter, files: Files)
    requires c.Planned(files) && c.plan.value.init.Some?
    ensures c.plan.Some? && c.plan.value.init.Some?
    ensures InitFor(c.recorded, c.plan.value.init) && c.plan.value.init.value.lines != []
  {
    hide EnvSecretsOf, ObjectsOf, DefsAccepted, ServicesAccepted, Exposed, ContainersFor, TableOk, SubPathsFor;
    hide MkdirLine, WorkMountsFor, c.PolicyPlanned;
    var vol :| vol in c.recorded;
    var sub :| sub in c.recorded[vol];
    assert Records(c.recorded, vol, sub);
    assert MkdirLine(vol, sub) in c.plan.value.init.value.lines;
  }

  /** After Convert, the init container's script makes the directories of the recorded sub-paths, and does
      nothing else, if they are plain. */
  lemma PlannedScriptMakes(c: Converter, files: Files)
    requires c.Planned(files) && c.plan.value.init.Some?
    requires forall vol, sub :: Records(c.recorded, vol, sub) ==> Plain(vol) && Plain(sub)
    ensures forall cmd :: cmd in Commands(Join(c.plan.value.init.value.lines, '\n')) <==>
              exists vol, sub :: Records(c.recorded, vol, sub) && cmd == Some(MkdirWords(Directory(vol, sub)))
  {
    hide c.Planned, InitFor, Plain, Records, Commands, MkdirWords, Directory;
    PlannedLines(c, files);
    ScriptMakes(c.recorded, c.plan.value.init.value);
  }
}
