/**
 Path resolution (fs/path.c, __path_normalize).

 The kernel copies a path component by component into an output buffer.  When the buffer names a symbolic
 link it splices the link text into what it has, and resolves the spliced text again from the root: `Restart`.
 A stack machine would keep the directory reached so far and put the link text in front of the components
 still to come: `InPlace`.  `RestartIsInPlace` says that they agree, result or error, whenever the starting
 directory is itself resolved and searchable.

 `Standard` is the stack machine with the rules of POSIX.1-2017 (Base Definitions, section 4.13) for a slash
 at the end, for missing directories and for the number of links.  `Departs` walks along with the kernel and
 finds the places where it parts from them; `ResolutionIsStandardIff` says that there are no others.
 */
module PathResolution {
  import opened Common

  const ENOENT := -2
  const EACCES := -13
  const ENOTDIR := -20
  const ELOOP := -40
  const MAX_EXPANSIONS: nat := 5
  const SYMLOOP_MIN: nat := 8 // the smallest SYMLOOP_MAX a system may have

  /** What stat and the search-permission check say about a path. */
  datatype Node = Missing | Directory(searchable: bool) | OtherFile

  /** The mounted file systems, addressed by full path; `link` is readlink. */
  datatype Fs = Fs(link: string -> Option<string>, node: string -> Node)

  // ---------------------------------------------------------------- texts and components

  /** The output buffer that holds these components. */
  function Text(comps: seq<string>): string {
    if comps == [] then "" else "/" + comps[0] + Text(comps[1..])
  }

  /** How many characters come before the first slash. */
  function NameLength(s: string): (n: nat)
    ensures n <= |s|
    ensures forall i :: 0 <= i < n ==> s[i] != '/'
    ensures n < |s| ==> s[n] == '/'
  {
    if s == "" || s[0] == '/' then 0 else 1 + NameLength(s[1..])
  }

  function Components(s: string): seq<string>
    decreases |s|
  {
    if s == "" then []
    else if s[0] == '/' then Components(s[1..])
    else
      var n := NameLength(s);
      assert n > 0;
      [s[..n]] + Components(s[n..])
  }

  predicate EndsInSlash(s: string) {
    s != "" && s[|s| - 1] == '/'
  }

  /** A component that stands for a directory entry. */
  predicate Name(c: string) {
    c != "" && c != "." && c != ".." && '/' !in c
  }

  ghost predicate Names(comps: seq<string>) {
    forall i :: 0 <= i < |comps| ==> Name(comps[i])
  }

  // ---------------------------------------------------------------- the two resolvers

  datatype Outcome = Done(stack: seq<string>) | Fail(errno: int)

  function Parent(stack: seq<string>): seq<string> {
    if stack == [] then [] else stack[..|stack| - 1]
  }

  /** Passing through this path is refused; a missing entry is let through and found missing later. */
  function Barrier(fs: Fs, path: string): Option<int> {
    match fs.node(path)
    case Missing => None
    case OtherFile => Some(ENOTDIR)
    case Directory(searchable) => if searchable then None else Some(EACCES)
  }

  predicate Absolute(text: string) {
    text != "" && text[0] == '/'
  }

  /**
   The resolver that goes on in place, with the kernel's rules for slashes and missing entries.  `comps` is what
   is still to come, `slash` whether a slash follows it, and `budget` how many links may still be expanded.
   */
  function InPlace(fs: Fs, stack: seq<string>, comps: seq<string>, slash: bool, follow: bool, budget: nat): Outcome
    decreases budget, |comps|
  {
    if comps == [] then Done(stack)
    else
      var c, rest := comps[0], comps[1..];
      if c == "." then InPlace(fs, stack, rest, slash, follow, budget)
      else if c == ".." then InPlace(fs, Parent(stack), rest, slash, follow, budget)
      else
        var here := stack + [c];
        if !follow && rest == [] then Done(here)
        else match fs.link(Text(here))
          case Some(text) =>
            if budget == 0 then Fail(ELOOP)
            else InPlace(fs, if Absolute(text) then [] else stack, Components(text) + rest,
                         if rest == [] then EndsInSlash(text) else slash, follow, budget - 1)
          case None =>
            if (rest != [] || slash) && Barrier(fs, Text(here)).Some? then Fail(Barrier(fs, Text(here)).value)
            else InPlace(fs, here, rest, slash, follow, budget)
  }

  /** The resolver of the code: after splicing in a link it starts again with nothing on the stack. */
  function Restart(fs: Fs, stack: seq<string>, comps: seq<string>, slash: bool, follow: bool, budget: nat): Outcome
    decreases budget, |comps|
  {
    if comps == [] then Done(stack)
    else
      var c, rest := comps[0], comps[1..];
      if c == "." then Restart(fs, stack, rest, slash, follow, budget)
      else if c == ".." then Restart(fs, Parent(stack), rest, slash, follow, budget)
      else
        var here := stack + [c];
        if !follow && rest == [] then Done(here)
        else match fs.link(Text(here))
          case Some(text) =>
            if budget == 0 then Fail(ELOOP)
            else Restart(fs, [], (if Absolute(text) then [] else stack) + (Components(text) + rest),
                         if rest == [] then text == "" || EndsInSlash(text) else slash, follow, budget - 1)
          case None =>
            if (rest != [] || slash) && Barrier(fs, Text(here)).Some? then Fail(Barrier(fs, Text(here)).value)
            else Restart(fs, here, rest, slash, follow, budget)
  }

  // ---------------------------------------------------------------- they agree

  /** Every directory on the way to `stack` is a real one that can be passed through. */
  ghost predicate Solid(fs: Fs, stack: seq<string>) {
    forall k :: 0 < k <= |stack| ==> fs.link(Text(stack[..k])).None? && Barrier(fs, Text(stack[..k])).None?
  }

  lemma SolidPrefix(fs: Fs, stack: seq<string>, n: nat)
    requires Solid(fs, stack) && n <= |stack|
    ensures Solid(fs, stack[..n])
  {
    forall k | 0 < k <= n ensures fs.link(Text(stack[..n][..k])).None? && Barrier(fs, Text(stack[..n][..k])).None? {
      assert stack[..n][..k] == stack[..k];
    }
  }

  lemma SolidPush(fs: Fs, stack: seq<string>, c: string)
    requires Solid(fs, stack) && fs.link(Text(stack + [c])).None? && Barrier(fs, Text(stack + [c])).None?
    ensures Solid(fs, stack + [c])
  {
    forall k | 0 < k <= |stack| + 1
      ensures fs.link(Text((stack + [c])[..k])).None? && Barrier(fs, Text((stack + [c])[..k])).None?
    {
      if k <= |stack| {
        assert (stack + [c])[..k] == stack[..k];
      } else {
        assert (stack + [c])[..k] == stack + [c];
      }
    }
  }

  /** Walking again over a solid directory leads back to it. */
  lemma {:induction false} Replay(fs: Fs, done: seq<string>, todo: seq<string>, comps: seq<string>, slash: bool, follow: bool, budget: nat)
    requires Solid(fs, done + todo) && Names(done + todo)
    ensures InPlace(fs, done, todo + comps, slash, follow, budget) == InPlace(fs, done + todo, comps, slash, follow, budget)
    decreases |todo|
  {
    if todo == [] {
      assert todo + comps == comps && done + todo == done;
    } else {
      var c := todo[0];
      var here := done + [c];
      assert here + todo[1..] == done + todo;
      assert (todo + comps)[1..] == todo[1..] + comps;
      assert (done + todo)[..|here|] == here;
      assert (done + todo)[|done|] == c;
      Replay(fs, here, todo[1..], comps, slash, follow, budget);
    }
  }

  /** Restarting from the root is the same as going on in place. */
  lemma {:induction false} RestartIsInPlace(fs: Fs, stack: seq<string>, comps: seq<string>, slash: bool, follow: bool, budget: nat)
    requires Solid(fs, stack) && Names(stack)
    requires forall i :: 0 <= i < |comps| ==> comps[i] != "" && '/' !in comps[i]
    ensures Restart(fs, stack, comps, slash, follow, budget) == InPlace(fs, stack, comps, slash, follow, budget)
    decreases budget, |comps|
  {
    if comps != [] {
      var c, rest := comps[0], comps[1..];
      if c == "." {
        RestartIsInPlace(fs, stack, rest, slash, follow, budget);
      } else if c == ".." {
        SolidPrefix(fs, stack, |Parent(stack)|);
        RestartIsInPlace(fs, Parent(stack), rest, slash, follow, budget);
      } else if follow || rest != [] {
        var here := stack + [c];
        var link := fs.link(Text(here));
        if link.Some? && budget > 0 {
          SpliceAgrees(fs, stack, link.value, rest, slash, follow, budget);
        } else if link.None? && !((rest != [] || slash) && Barrier(fs, Text(here)).Some?) {
          if rest == [] {
          } else {
            SolidPush(fs, stack, c);
            RestartIsInPlace(fs, here, rest, slash, follow, budget);
          }
        }
      }
    }
  }

  lemma {:induction false} SpliceAgrees(fs: Fs, stack: seq<string>, text: string, rest: seq<string>, slash: bool, follow: bool, budget: nat)
    requires Solid(fs, stack) && Names(stack) && budget > 0
    requires forall i :: 0 <= i < |rest| ==> rest[i] != "" && '/' !in rest[i]
    ensures Restart(fs, [], (if Absolute(text) then [] else stack) + (Components(text) + rest),
                    if rest == [] then text == "" || EndsInSlash(text) else slash, follow, budget - 1)
         == InPlace(fs, if Absolute(text) then [] else stack, Components(text) + rest,
                    if rest == [] then EndsInSlash(text) else slash, follow, budget - 1)
    decreases budget, 0
  {
    var dir := if Absolute(text) then [] else stack;
    var comps := Components(text) + rest;
    var slash1 := if rest == [] then text == "" || EndsInSlash(text) else slash;
    ComponentsArePlain(text);
    RestartIsInPlace(fs, [], dir + comps, slash1, follow, budget - 1);
    assert [] + dir == dir;
    Replay(fs, [], dir, comps, slash1, follow, budget - 1);
    if rest == [] && text == "" {
      assert comps == [];
    }
  }

  lemma {:induction false} ComponentsArePlain(s: string)
    ensures forall i :: 0 <= i < |Components(s)| ==> Components(s)[i] != "" && '/' !in Components(s)[i]
    decreases |s|
  {
    if s == "" {
    } else if s[0] == '/' {
      ComponentsArePlain(s[1..]);
    } else {
      var n := NameLength(s);
      ComponentsArePlain(s[n..]);
      assert s[..n][0] == s[0];
      assert Components(s) == [s[..n]] + Components(s[n..]);
    }
  }

  /** A directory "a" with a link "l" in it that leads to "x" beside it; what "a" is itself is left open. */
  function LinkBelow(a: Option<string>, node: Node): Fs {
    Fs((path: string) => if path == "/a/l" then Some("x") else if path == "/a" then a else None,
       (path: string) => if path == "/a" then node else Missing)
  }

  lemma PathsBelow()
    ensures Text(["a", "l"]) == "/a/l" && Text(["a"]) == "/a" && Text(["a", "x"]) == "/a/x"
    ensures Text(["b"]) == "/b" && Text(["b", "x"]) == "/b/x"
    ensures Components("x") == ["x"] && Components("b") == ["b"]
  {
    NameLengthIs("x", 1);
    NameLengthIs("b", 1);
    assert "x"[..1] == "x" && "x"[1..] == "" && "b"[..1] == "b" && "b"[1..] == "";
  }

  /** In place, the link is followed in the starting directory, whatever that is. */
  lemma InPlaceBelow(a: Option<string>, node: Node)
    ensures InPlace(LinkBelow(a, node), ["a"], ["l"], false, true, 5) == Done(["a", "x"])
  {
    var fs := LinkBelow(a, node);
    PathsBelow();
    assert ["a"] + ["l"] == ["a", "l"] && ["a"] + ["x"] == ["a", "x"] && ["l"][1..] == [] && ["x"] + [] == ["x"];
    assert InPlace(fs, ["a"], ["x"], false, true, 4) == Done(["a", "x"]);
  }

  /** From a directory that cannot be searched the restart fails, since it passes through it again. */
  lemma RestartNeedsSearchableBase()
    ensures var fs := LinkBelow(None, Directory(false));
            Restart(fs, ["a"], ["l"], false, true, 5) == Fail(EACCES) && InPlace(fs, ["a"], ["l"], false, true, 5) == Done(["a", "x"])
  {
    var fs := LinkBelow(None, Directory(false));
    InPlaceBelow(None, Directory(false));
    PathsBelow();
    assert ["a"] + ["l"] == ["a", "l"] && ["l"][1..] == [] && ["a"] + (["x"] + []) == ["a", "x"] && [] + ["a"] == ["a"];
    assert Restart(fs, [], ["a", "x"], false, true, 4) == Fail(EACCES);
  }

  /** From a directory named through a link the restart ends elsewhere, since it follows that link now. */
  lemma RestartNeedsResolvedBase()
    ensures var fs := LinkBelow(Some("b"), Missing);
            Restart(fs, ["a"], ["l"], false, true, 5) == Done(["b", "x"]) && InPlace(fs, ["a"], ["l"], false, true, 5) == Done(["a", "x"])
  {
    var fs := LinkBelow(Some("b"), Missing);
    InPlaceBelow(Some("b"), Missing);
    PathsBelow();
    assert ["a"] + ["l"] == ["a", "l"] && ["l"][1..] == [] && ["a"] + (["x"] + []) == ["a", "x"] && [] + ["a"] == ["a"];
    assert ["a", "x"][1..] == ["x"] && [] + (["b"] + ["x"]) == ["b", "x"] && ["b", "x"][1..] == ["x"];
    assert Restart(fs, [], ["b", "x"], false, true, 3) == Done(["b", "x"]) by {
      assert [] + ["b"] == ["b"] && ["b"] + ["x"] == ["b", "x"] && ["x"][1..] == [];
    }
    assert Restart(fs, [], ["a", "x"], false, true, 4) == Done(["b", "x"]);
  }

  /** A resolved path is made of names only: nothing empty, no dots, no slashes inside. */
  lemma {:induction false} ResultIsClean(fs: Fs, stack: seq<string>, comps: seq<string>, slash: bool, follow: bool, budget: nat)
    requires Names(stack) && forall i :: 0 <= i < |comps| ==> comps[i] != "" && '/' !in comps[i]
    ensures var r := InPlace(fs, stack, comps, slash, follow, budget); r.Done? ==> Names(r.stack)
    decreases budget, |comps|
  {
    if comps != [] {
      var c, rest := comps[0], comps[1..];
      var here := stack + [c];
      if c == "." {
        ResultIsClean(fs, stack, rest, slash, follow, budget);
      } else if c == ".." {
        ResultIsClean(fs, Parent(stack), rest, slash, follow, budget);
      } else if follow || rest != [] {
        match fs.link(Text(here))
        case Some(text) =>
          if budget > 0 {
            ComponentsArePlain(text);
            ResultIsClean(fs, if Absolute(text) then [] else stack, Components(text) + rest,
                          if rest == [] then EndsInSlash(text) else slash, follow, budget - 1);
          }
        case None => ResultIsClean(fs, here, rest, slash, follow, budget);
      }
    }
  }

  /** The limit on expansions only ever turns a result into ELOOP: a larger one changes no other outcome. */
  lemma {:induction false} LimitOnlyCuts(fs: Fs, stack: seq<string>, comps: seq<string>, slash: bool, follow: bool, budget: nat, more: nat)
    requires InPlace(fs, stack, comps, slash, follow, budget) != Fail(ELOOP)
    ensures InPlace(fs, stack, comps, slash, follow, budget + more) == InPlace(fs, stack, comps, slash, follow, budget)
    decreases budget, |comps|
  {
    if comps != [] {
      var c, rest := comps[0], comps[1..];
      var here := stack + [c];
      if c == "." {
        LimitOnlyCuts(fs, stack, rest, slash, follow, budget, more);
      } else if c == ".." {
        LimitOnlyCuts(fs, Parent(stack), rest, slash, follow, budget, more);
      } else if follow || rest != [] {
        match fs.link(Text(here))
        case Some(text) =>
          LimitOnlyCuts(fs, if Absolute(text) then [] else stack, Components(text) + rest,
                        if rest == [] then EndsInSlash(text) else slash, follow, budget - 1, more);
        case None =>
          if !((rest != [] || slash) && Barrier(fs, Text(here)).Some?) {
            LimitOnlyCuts(fs, here, rest, slash, follow, budget, more);
          }
      }
    }
  }

  // ---------------------------------------------------------------- what a component does

  /** Down into a directory and up again is nothing, in all three resolvers; up from the root is nothing as well. */
  lemma UpUndoesDown(fs: Fs, stack: seq<string>, c: string, rest: seq<string>, slash: bool, follow: bool, budget: nat)
    requires Name(c) && fs.link(Text(stack + [c])).None? && fs.node(Text(stack + [c])) == Directory(true)
    ensures InPlace(fs, stack, [c, ".."] + rest, slash, follow, budget) == InPlace(fs, stack, rest, slash, follow, budget)
    ensures Restart(fs, stack, [c, ".."] + rest, slash, follow, budget) == Restart(fs, stack, rest, slash, follow, budget)
    ensures Standard(fs, stack, [c, ".."] + rest, slash, follow, budget) == Standard(fs, stack, rest, slash, follow, budget)
    ensures InPlace(fs, [], [".."] + rest, slash, follow, budget) == InPlace(fs, [], rest, slash, follow, budget)
    ensures Restart(fs, [], [".."] + rest, slash, follow, budget) == Restart(fs, [], rest, slash, follow, budget)
    ensures Standard(fs, [], [".."] + rest, slash, follow, budget) == Standard(fs, [], rest, slash, follow, budget)
  {
    assert ([c, ".."] + rest)[1..] == [".."] + rest && ([".."] + rest)[1..] == rest;
    assert (stack + [c])[..|stack|] == stack;
  }

  /** A link is followed from the root if its text begins with a slash, and from the directory it is in if not. */
  lemma LinkLeadsFrom(fs: Fs, stack: seq<string>, c: string, text: string, rest: seq<string>, slash: bool, follow: bool, budget: nat)
    requires Name(c) && fs.link(Text(stack + [c])) == Some(text) && (follow || rest != []) && budget > 0
    ensures var start := if |text| > 0 && text[0] == '/' then [] else stack;
            var ends := |text| > 0 && text[|text| - 1] == '/';
            && InPlace(fs, stack, [c] + rest, slash, follow, budget)
            == InPlace(fs, start, Components(text) + rest, if rest == [] then ends else slash, follow, budget - 1)
            && Standard(fs, stack, [c] + rest, slash, follow, budget)
            == Standard(fs, start, Components(text) + rest, slash || (rest == [] && ends), follow, budget - 1)
  {
    assert ([c] + rest)[1..] == rest;
  }

  // ---------------------------------------------------------------- the standard

  /**
   The resolver of the standard: a slash at the end stays pending through every link, and asks for a directory
   even if a final link is not to be followed; a directory on the way must exist and let itself be searched.
   A last component that is missing is let through even before a slash, since it may be a directory about to be
   created.  The number of links it follows is the system's choice.
   */
  function Standard(fs: Fs, stack: seq<string>, comps: seq<string>, slash: bool, follow: bool, limit: nat): Outcome
    decreases limit, |comps|
  {
    if comps == [] then Done(stack)
    else
      var c, rest := comps[0], comps[1..];
      if c == "." then Standard(fs, stack, rest, slash, follow, limit)
      else if c == ".." then Standard(fs, Parent(stack), rest, slash, follow, limit)
      else
        var here := stack + [c];
        if !follow && rest == [] && !slash then Done(here)
        else match fs.link(Text(here))
          case Some(text) =>
            if limit == 0 then Fail(ELOOP)
            else Standard(fs, if Absolute(text) then [] else stack, Components(text) + rest,
                          slash || (rest == [] && EndsInSlash(text)), follow, limit - 1)
          case None =>
            if rest == [] then if slash && fs.node(Text(here)).OtherFile? then Fail(ENOTDIR) else Done(here)
            else match fs.node(Text(here))
              case Missing => Fail(ENOENT)
              case OtherFile => Fail(ENOTDIR)
              case Directory(searchable) =>
                if searchable then Standard(fs, here, rest, slash, follow, limit) else Fail(EACCES)
  }

  /** More links than `limit` are met on the way, as the standard goes it. */
  predicate TooManyLinks(fs: Fs, stack: seq<string>, comps: seq<string>, slash: bool, follow: bool, limit: nat)
    decreases limit, |comps|
  {
    comps != [] &&
    var c, rest := comps[0], comps[1..];
    if c == "." then TooManyLinks(fs, stack, rest, slash, follow, limit)
    else if c == ".." then TooManyLinks(fs, Parent(stack), rest, slash, follow, limit)
    else
      var here := stack + [c];
      (follow || rest != [] || slash) &&
      match fs.link(Text(here))
      case Some(text) =>
        limit == 0 || TooManyLinks(fs, if Absolute(text) then [] else stack, Components(text) + rest,
                                   slash || (rest == [] && EndsInSlash(text)), follow, limit - 1)
      case None => rest != [] && fs.node(Text(here)) == Directory(true) && TooManyLinks(fs, here, rest, slash, follow, limit)
  }

  /** The standard gives up for the number of links exactly then. */
  lemma {:induction false} LoopIsTooManyLinks(fs: Fs, stack: seq<string>, comps: seq<string>, slash: bool, follow: bool, limit: nat)
    ensures Standard(fs, stack, comps, slash, follow, limit) == Fail(ELOOP) <==> TooManyLinks(fs, stack, comps, slash, follow, limit)
    decreases limit, |comps|
  {
    if comps != [] {
      var c, rest := comps[0], comps[1..];
      if c == "." {
        LoopIsTooManyLinks(fs, stack, rest, slash, follow, limit);
      } else if c == ".." {
        LoopIsTooManyLinks(fs, Parent(stack), rest, slash, follow, limit);
      } else {
        match fs.link(Text(stack + [c]))
        case Some(text) =>
          if limit > 0 {
            LoopIsTooManyLinks(fs, if Absolute(text) then [] else stack, Components(text) + rest,
                               slash || (rest == [] && EndsInSlash(text)), follow, limit - 1);
          }
        case None =>
          if rest != [] {
            LoopIsTooManyLinks(fs, stack + [c], rest, slash, follow, limit);
          }
      }
    }
  }

  /**
   The kernel's own walk comes to a place where it parts from the standard.  `slash` is what the kernel still
   remembers of a slash at the end, `pending` what it should; `more` is how many more links the standard follows.
   The places are: a directory on the way that does not exist; a last component that is a file of another kind,
   with the slash forgotten; one that is a directory not to be searched, with the slash remembered; a link, or a
   file of another kind, with a slash behind it and not to be followed; and a sixth link that others would follow.
   */
  predicate Departs(fs: Fs, stack: seq<string>, comps: seq<string>, slash: bool, pending: bool, follow: bool,
                    budget: nat, more: nat)
    decreases budget, |comps|
  {
    comps != [] &&
    var c, rest := comps[0], comps[1..];
    if c == "." then Departs(fs, stack, rest, slash, pending, follow, budget, more)
    else if c == ".." then Departs(fs, Parent(stack), rest, slash, pending, follow, budget, more)
    else
      var here := stack + [c];
      var node := fs.node(Text(here));
      if !follow && rest == [] then pending && (fs.link(Text(here)).Some? || node.OtherFile?)
      else match fs.link(Text(here))
        case Some(text) =>
          if budget == 0 then !TooManyLinks(fs, stack, comps, pending, follow, more)
          else Departs(fs, if Absolute(text) then [] else stack, Components(text) + rest,
                       if rest == [] then EndsInSlash(text) else slash,
                       pending || (rest == [] && EndsInSlash(text)), follow, budget - 1, more)
        case None =>
          if rest == [] then (pending && !slash && node.OtherFile?) || (slash && node == Directory(false))
          else node.Missing? || (node == Directory(true) && Departs(fs, here, rest, slash, pending, follow, budget, more))
  }

  ghost predicate NoLinks(fs: Fs, stack: seq<string>) {
    forall k :: 0 < k <= |stack| ==> fs.link(Text(stack[..k])).None?
  }

  /** With a slash pending, the standard never ends at a link or below one. */
  lemma {:induction false} SlashLeavesNoLink(fs: Fs, stack: seq<string>, comps: seq<string>, follow: bool, limit: nat)
    requires NoLinks(fs, stack)
    ensures var r := Standard(fs, stack, comps, true, follow, limit); r.Done? ==> NoLinks(fs, r.stack)
    decreases limit, |comps|
  {
    if comps != [] {
      var c, rest := comps[0], comps[1..];
      var here := stack + [c];
      if c == "." {
        SlashLeavesNoLink(fs, stack, rest, follow, limit);
      } else if c == ".." {
        NoLinksAbove(fs, stack);
        SlashLeavesNoLink(fs, Parent(stack), rest, follow, limit);
      } else {
        match fs.link(Text(here))
        case Some(text) =>
          if limit > 0 {
            SlashLeavesNoLink(fs, if Absolute(text) then [] else stack, Components(text) + rest, follow, limit - 1);
          }
        case None =>
          NoLinksBelow(fs, stack, c);
          if rest != [] {
            SlashLeavesNoLink(fs, here, rest, follow, limit);
          }
      }
    }
  }

  lemma NoLinksAbove(fs: Fs, stack: seq<string>)
    requires NoLinks(fs, stack)
    ensures NoLinks(fs, Parent(stack))
  {
    forall k | 0 < k <= |Parent(stack)| ensures fs.link(Text(Parent(stack)[..k])).None? {
      assert Parent(stack)[..k] == stack[..k];
    }
  }

  lemma NoLinksBelow(fs: Fs, stack: seq<string>, c: string)
    requires NoLinks(fs, stack) && fs.link(Text(stack + [c])).None?
    ensures NoLinks(fs, stack + [c])
  {
    var here := stack + [c];
    forall k | 0 < k <= |here| ensures fs.link(Text(here[..k])).None? {
      if k <= |stack| {
        assert here[..k] == stack[..k];
      } else {
        assert here[..k] == here;
      }
    }
  }

  /** Going on in place gives what the standard asks for, whatever its limit, exactly if it never parts from it. */
  lemma {:induction false} InPlaceIsStandardIff(fs: Fs, stack: seq<string>, comps: seq<string>, slash: bool, pending: bool, follow: bool,
                                                budget: nat, more: nat)
    requires NoLinks(fs, stack) && (slash ==> pending)
    ensures Standard(fs, stack, comps, pending, follow, budget + more) == InPlace(fs, stack, comps, slash, follow, budget)
       <==> !Departs(fs, stack, comps, slash, pending, follow, budget, more)
    decreases budget, |comps|
  {
    if comps != [] {
      var c, rest := comps[0], comps[1..];
      var here := stack + [c];
      if c == "." {
        InPlaceIsStandardIff(fs, stack, rest, slash, pending, follow, budget, more);
      } else if c == ".." {
        NoLinksAbove(fs, stack);
        InPlaceIsStandardIff(fs, Parent(stack), rest, slash, pending, follow, budget, more);
      } else if !follow && rest == [] {
        LastNotFollowed(fs, stack, comps, slash, pending, budget, more);
      } else {
        match fs.link(Text(here))
        case Some(text) =>
          if budget > 0 {
            var dir := if Absolute(text) then [] else stack;
            InPlaceIsStandardIff(fs, dir, Components(text) + rest, if rest == [] then EndsInSlash(text) else slash,
                                 pending || (rest == [] && EndsInSlash(text)), follow, budget - 1, more);
          } else {
            LoopIsTooManyLinks(fs, stack, comps, pending, follow, more);
          }
        case None =>
          FailuresAreNegative(fs, stack, comps, slash, follow, budget);
          if rest != [] && Barrier(fs, Text(here)).None? {
            NoLinksBelow(fs, stack, c);
            InPlaceIsStandardIff(fs, here, rest, slash, pending, follow, budget, more);
          }
      }
    }
  }

  /** The last component when a final link is not to be followed: the kernel stops there, the standard only without a slash. */
  lemma LastNotFollowed(fs: Fs, stack: seq<string>, comps: seq<string>, slash: bool, pending: bool, budget: nat, more: nat)
    requires NoLinks(fs, stack) && |comps| == 1 && comps[0] != "." && comps[0] != ".."
    ensures Standard(fs, stack, comps, pending, false, budget + more) == InPlace(fs, stack, comps, slash, false, budget)
       <==> !Departs(fs, stack, comps, slash, pending, false, budget, more)
  {
    var here, limit := stack + [comps[0]], budget + more;
    assert comps[1..] == [];
    match fs.link(Text(here))
    case Some(text) =>
      if pending && limit > 0 {
        var dir := if Absolute(text) then [] else stack;
        assert NoLinks(fs, dir);
        SlashLeavesNoLink(fs, dir, Components(text) + [], false, limit - 1);
        NotWithoutLink(fs, here, Standard(fs, dir, Components(text) + [], true, false, limit - 1));
      }
    case None =>
  }

  lemma NotWithoutLink(fs: Fs, here: seq<string>, r: Outcome)
    requires here != [] && fs.link(Text(here)).Some? && (r.Done? ==> NoLinks(fs, r.stack))
    ensures r != Done(here)
  {
    assert here[..|here|] == here;
  }

  /** What a caller can tell from the tree and the path: whether the kernel keeps to a standard that follows `limit` links. */
  predicate KeepsToStandard(fs: Fs, base: seq<string>, path: string, follow: bool, limit: nat)
    requires limit >= SYMLOOP_MIN
  {
    !Departs(fs, base, Components(path), EndsInSlash(path), EndsInSlash(path), follow,
             MAX_EXPANSIONS, limit - MAX_EXPANSIONS)
  }

  /** For every tree, starting directory and path: the kernel gives the result or error of the standard exactly then. */
  lemma ResolutionIsStandardIff(fs: Fs, base: seq<string>, path: string, follow: bool, limit: nat)
    requires Solid(fs, base) && Names(base) && limit >= SYMLOOP_MIN
    ensures Restarting(fs, base, path, follow, MAX_EXPANSIONS)
         == Standard(fs, base, Components(path), EndsInSlash(path), follow, limit)
       <==> KeepsToStandard(fs, base, path, follow, limit)
  {
    ComponentsArePlain(path);
    RestartIsInPlace(fs, base, Components(path), EndsInSlash(path), follow, MAX_EXPANSIONS);
    InPlaceIsStandardIff(fs, base, Components(path), EndsInSlash(path), EndsInSlash(path), follow,
                         MAX_EXPANSIONS, limit - MAX_EXPANSIONS);
  }

  lemma OneLetter(c: char)
    requires c != '/'
    ensures Components([c]) == [[c]] && Text([[c]]) == "/" + [c] && [] + [[c]] == [[c]] && [[c]][1..] == []
    ensures !Absolute([c]) && !EndsInSlash([c]) && [[c]] + [] == [[c]]
  {
    NameLengthIs([c], 1);
    assert [c][..1] == [c] && [c][1..] == "";
  }

  /** A link with a slash behind it to a file that is no directory: the slash is forgotten with the link. */
  lemma SlashAfterLinkIsLost(limit: nat)
    requires limit > 0
    ensures var fs := Fs((path: string) => if path == "/l" then Some("f") else None,
                         (path: string) => if path == "/f" then OtherFile else Missing);
            && Restart(fs, [], ["l"], true, true, MAX_EXPANSIONS) == Done(["f"])
            && Restart(fs, [], ["f"], true, true, MAX_EXPANSIONS) == Fail(ENOTDIR)
            && Standard(fs, [], ["l"], true, true, limit) == Fail(ENOTDIR)
  {
    OneLetter('l');
    OneLetter('f');
    var fs := Fs((path: string) => if path == "/l" then Some("f") else None,
                 (path: string) => if path == "/f" then OtherFile else Missing);
    assert [] + (["f"] + []) == ["f"] && "/f"[1] != "/l"[1];
    assert Restart(fs, [], ["f"], false, true, MAX_EXPANSIONS - 1) == Done(["f"]);
    assert Standard(fs, [], ["f"], true, true, limit - 1) == Fail(ENOTDIR);
  }

  /** A link with a slash behind it that is not to be followed: the standard follows it nevertheless. */
  lemma SlashAfterUnfollowedLinkIsLost(limit: nat)
    requires limit > 0
    ensures var fs := Fs((path: string) => if path == "/l" then Some("d") else None,
                         (path: string) => if path == "/d" then Directory(true) else Missing);
            && Restart(fs, [], ["l"], true, false, MAX_EXPANSIONS) == Done(["l"])
            && Standard(fs, [], ["l"], true, false, limit) == Done(["d"])
  {
    OneLetter('l');
    OneLetter('d');
    var fs := Fs((path: string) => if path == "/l" then Some("d") else None,
                 (path: string) => if path == "/d" then Directory(true) else Missing);
    assert "/d"[1] != "/l"[1];
    assert Standard(fs, [], ["d"], true, false, limit - 1) == Done(["d"]);
  }

  /** A directory that may not be searched, with a slash behind it: nothing is looked up in it, and yet it is refused. */
  lemma UnsearchedDirectoryIsRefused(limit: nat)
    ensures var fs := Fs((path: string) => None, (path: string) => if path == "/d" then Directory(false) else Missing);
            && Restart(fs, [], ["d"], true, true, MAX_EXPANSIONS) == Fail(EACCES)
            && Standard(fs, [], ["d"], true, true, limit) == Done(["d"])
  {
    OneLetter('d');
  }

  /** A directory that does not exist, and its parent: the kernel takes back what it never entered. */
  lemma MissingIsPassed(limit: nat)
    ensures var fs := Fs((path: string) => None, (path: string) => Missing);
            && Restart(fs, [], ["m", "..", "x"], false, true, MAX_EXPANSIONS) == Done(["x"])
            && Standard(fs, [], ["m", "..", "x"], false, true, limit) == Fail(ENOENT)
  {
    OneLetter('m');
    OneLetter('x');
    var fs := Fs((path: string) => None, (path: string) => Missing);
    assert ["m", "..", "x"][1..] == ["..", "x"] && ["..", "x"][1..] == ["x"] && Parent(["m"]) == [];
    assert Restart(fs, [], ["x"], false, true, MAX_EXPANSIONS) == Done(["x"]);
    assert Restart(fs, ["m"], ["..", "x"], false, true, MAX_EXPANSIONS) == Done(["x"]);
  }

  /** The links "/a" to "/f", each to the next letter; "/g" is a file. */
  function Chain(path: string): Option<string> {
    if |path| == 2 && path[0] == '/' && 'a' <= path[1] <= 'f' then Some([path[1] + 1 as char]) else None
  }

  lemma {:induction false} ChainRun(fs: Fs, c: char, steps: nat, n: nat)
    requires fs.link == Chain && 'a' <= c && c as int + steps <= 'g' as int && steps <= n
    ensures Restart(fs, [], [[c]], false, true, n) == Restart(fs, [], [[c + steps as char]], false, true, n - steps)
    ensures Standard(fs, [], [[c]], false, true, n) == Standard(fs, [], [[c + steps as char]], false, true, n - steps)
    decreases steps
  {
    if steps == 0 {
      assert c + 0 as char == c;
    } else {
      var d := c + 1 as char;
      OneLetter(c);
      OneLetter(d);
      assert Chain("/" + [c]) == Some([d]) && [] + ([[d]] + []) == [[d]];
      ChainRun(fs, d, steps - 1, n - 1);
      assert d + (steps - 1) as char == c + steps as char;
    }
  }

  /** Six links in a row: more than the kernel follows, fewer than every system must. */
  lemma SixLinksAreTooMany(limit: nat)
    requires limit >= SYMLOOP_MIN
    ensures var fs := Fs(Chain, (path: string) => OtherFile);
            && Restart(fs, [], ["a"], false, true, MAX_EXPANSIONS) == Fail(ELOOP)
            && Standard(fs, [], ["a"], false, true, limit) == Done(["g"])
  {
    var fs := Fs(Chain, (path: string) => OtherFile);
    ChainRun(fs, 'a', 5, MAX_EXPANSIONS);
    ChainRun(fs, 'a', 6, limit);
    OneLetter('f');
    OneLetter('g');
    assert 'a' + 5 as char == 'f' && 'a' + 6 as char == 'g';
    assert Chain("/f").Some? && Chain("/g").None?;
  }

  // ---------------------------------------------------------------- splitting joined texts

  lemma {:induction false} NameLengthIs(s: string, n: nat)
    requires n <= |s| && (forall i :: 0 <= i < n ==> s[i] != '/') && (n < |s| ==> s[n] == '/')
    ensures NameLength(s) == n
  {
    var m := NameLength(s);
  }

  lemma {:induction false} ComponentsJoin(a: string, b: string)
    ensures Components(a + "/" + b) == Components(a) + Components(b)
    decreases |a|
  {
    var s := a + "/" + b;
    if a == "" {
      assert s[1..] == b;
    } else if a[0] == '/' {
      assert s[1..] == a[1..] + "/" + b;
      ComponentsJoin(a[1..], b);
    } else {
      var n := NameLength(a);
      assert s[n] == '/';
      NameLengthIs(s, n);
      assert s[..n] == a[..n] && s[n..] == a[n..] + "/" + b;
      ComponentsJoin(a[n..], b);
    }
  }

  lemma {:induction false} ComponentsOfText(comps: seq<string>)
    requires Names(comps)
    ensures Components(Text(comps)) == comps
  {
    if comps != [] {
      var c, tail := comps[0], Text(comps[1..]);
      var s := c + tail;
      assert Text(comps)[1..] == s;
      NameLengthIs(s, |c|);
      assert s[..|c|] == c && s[|c|..] == tail;
      ComponentsOfText(comps[1..]);
    }
  }

  lemma {:induction false} TextAppend(stack: seq<string>, c: string)
    ensures Text(stack + [c]) == Text(stack) + "/" + c
  {
    if stack == [] {
      assert stack + [c] == [c];
      assert [c][1..] == [];
    } else {
      assert (stack + [c])[1..] == stack[1..] + [c];
      TextAppend(stack[1..], c);
    }
  }

  /** The output buffer after the link text was written over the component, or moved to the front. */
  function Head(dir: seq<string>, link: string): string {
    if Absolute(link) then link else Text(dir) + "/" + link
  }

  /** The text the code resolves again after it has spliced in a link. */
  function Spliced(dir: seq<string>, link: string, rest: string): string {
    if rest == "" then Head(dir, link) else Head(dir, link) + "/" + rest
  }

  lemma HeadComponents(dir: seq<string>, link: string)
    requires Names(dir)
    ensures Components(Head(dir, link)) == (if Absolute(link) then [] else dir) + Components(link)
  {
    if !Absolute(link) {
      ComponentsJoin(Text(dir), link);
      ComponentsOfText(dir);
    }
  }

  lemma SplicedComponents(dir: seq<string>, link: string, rest: string)
    requires Names(dir)
    ensures Components(Spliced(dir, link, rest))
         == (if Absolute(link) then [] else dir) + (Components(link) + Components(rest))
  {
    var d := if Absolute(link) then [] else dir;
    HeadComponents(dir, link);
    if rest == "" {
      assert Components(link) + Components(rest) == Components(link);
    } else {
      ComponentsJoin(Head(dir, link), rest);
      Associate(d, Components(link), Components(rest));
    }
  }

  lemma Associate(a: seq<string>, b: seq<string>, c: seq<string>)
    ensures (a + b) + c == a + (b + c)
  {
  }

  lemma SplicedEnd(dir: seq<string>, link: string, rest: string)
    ensures Spliced(dir, link, rest) != ""
    ensures EndsInSlash(Spliced(dir, link, rest)) == if rest == "" then link == "" || EndsInSlash(link) else EndsInSlash(rest)
  {
    var s := Spliced(dir, link, rest);
    if rest != "" {
      assert s[|s| - 1] == rest[|rest| - 1];
    }
  }

  // ---------------------------------------------------------------- scanning a text

  /** `p` is where a component starts, or the end. */
  predicate AtComponent(path: string, p: nat) {
    p <= |path| && (p < |path| ==> path[p] != '/')
  }

  /** Passes over the slashes that start at `start`. */
  method SkipSlashes(path: string, start: nat) returns (p: nat)
    requires start <= |path|
    ensures start <= p && AtComponent(path, p)
    ensures Components(path[p..]) == Components(path[start..])
    ensures forall i :: start <= i < p ==> path[i] == '/'
  {
    p := start;
    while p < |path| && path[p] == '/'
      invariant start <= p <= |path| && Components(path[p..]) == Components(path[start..])
      invariant forall i :: start <= i < p ==> path[i] == '/'
    {
      assert path[p..][1..] == path[p + 1..];
      p := p + 1;
    }
  }

  /** Copy characters up to a slash or the end. */
  method CopyName(path: string, start: nat, buffer: string) returns (p: nat, out: string)
    requires AtComponent(path, start) && start < |path|
    ensures start < p <= |path| && (p < |path| ==> path[p] == '/')
    ensures p == start + NameLength(path[start..]) && out == buffer + path[start..p]
  {
    p, out := start, buffer;
    while p < |path| && path[p] != '/'
      invariant start <= p <= |path| && out == buffer + path[start..p]
      invariant forall i :: start <= i < p ==> path[i] != '/'
    {
      out := out + [path[p]];
      p := p + 1;
    }
    NameLengthIs(path[start..], p - start);
  }

  lemma LastSlash(base: string, c: string, o: nat)
    requires '/' !in c && |base| - 1 <= o < |base + c| && (base + c)[o] == '/'
    ensures o == |base| - 1
  {
    forall i | |base| <= i < |base + c| ensures (base + c)[i] != '/' {
      assert (base + c)[i] == c[i - |base|];
    }
  }

  /** Takes the last component off the buffer, with the slash before it. */
  method DropLast(buffer: string, ghost stack: seq<string>) returns (out: string)
    requires buffer == Text(stack) && Names(stack)
    ensures out == Text(Parent(stack))
    ensures stack == [] ==> out == ""
    ensures stack != [] ==> out == Text(stack[..|stack| - 1])
  {
    out := buffer;
    if out != "" {
      ghost var parent, c := Parent(stack), stack[|stack| - 1];
      assert stack == parent + [c];
      TextAppend(parent, c);
      ghost var base := Text(parent) + "/";
      assert buffer == base + c;
      var o := |out| - 1;
      while out[o] != '/'
        invariant |base| - 1 <= o < |out|
        decreases o
      {
        o := o - 1;
      }
      LastSlash(base, c, o);
      out := out[..o];
    }
  }

  /** path_is_normalized: a leading slash and no two slashes in a row; a slash at the end is let through. */
  method IsNormalized(path: string) returns (ok: bool)
    ensures ok <==> (path == "" || path[0] == '/') && forall i :: 0 <= i < |path| - 1 ==> !(path[i] == '/' && path[i + 1] == '/')
  {
    var p := 0;
    while p < |path|
      invariant 0 <= p <= |path| && (p > 0 ==> path[0] == '/')
      invariant 0 < p < |path| ==> path[p] == '/' && path[p - 1] != '/'
      invariant forall i :: 0 <= i < p - 1 ==> !(path[i] == '/' && path[i + 1] == '/')
    {
      if path[p] != '/' {
        return false;
      }
      p := p + 1;
      if p < |path| && path[p] == '/' {
        return false;
      }
      while p < |path| && path[p] != '/'
        invariant 0 < p <= |path| && path[0] == '/' && (p < |path| && path[p] == '/' ==> path[p - 1] != '/')
        invariant forall i :: 0 <= i < p - 1 ==> !(path[i] == '/' && path[i + 1] == '/')
      {
        p := p + 1;
      }
    }
    return true;
  }

  // ---------------------------------------------------------------- the code

  /** What `Restart` makes of the rest of a text, given the directory reached so far. */
  function Remaining(fs: Fs, stack: seq<string>, path: string, p: nat, follow: bool, budget: nat): Outcome
    requires p <= |path|
  {
    Restart(fs, stack, Components(path[p..]), EndsInSlash(path), follow, budget)
  }

  function Restarting(fs: Fs, base: seq<string>, path: string, follow: bool, budget: nat): Outcome {
    Restart(fs, base, Components(path), EndsInSlash(path), follow, budget)
  }

  /** The outcome a call reports: an error number, or 0 and the text of the path in the buffer. */
  ghost predicate Reports(err: int, out: string, outcome: Outcome) {
    match outcome
    case Done(stack) => err == 0 && out == Text(stack)
    case Fail(e) => err == e
  }

  lemma FirstComponent(path: string, p: nat, q: nat)
    requires AtComponent(path, p) && p < |path| && q == p + NameLength(path[p..])
    ensures p < q <= |path|
    ensures Components(path[p..]) == [path[p..q]] + Components(path[q..])
    ensures path[p..q] != "" && '/' !in path[p..q]
  {
    var s := path[p..];
    var n := NameLength(s);
    assert s[..n] == path[p..q] && s[n..] == path[q..];
    assert forall i :: 0 <= i < n ==> path[p..q][i] == s[i];
  }

  /** The tests at the head of the loop see whether the component is "." or "..". */
  lemma DotTests(path: string, p: nat, q: nat)
    requires AtComponent(path, p) && p < |path| && q == p + NameLength(path[p..])
    ensures p < q <= |path|
    ensures path[p..q] == "." <==> path[p] == '.' && (p + 1 == |path| || path[p + 1] == '/')
    ensures path[p..q] == ".." <==>
              path[p] == '.' && p + 1 < |path| && path[p + 1] == '.' && (p + 2 == |path| || path[p + 2] == '/')
  {
    var s := path[p..];
    var n := NameLength(s);
    assert |path[p..q]| == n && |"."| == 1 && |".."| == 2;
    assert n == 1 ==> path[p..q] == [path[p]];
    assert n == 2 ==> path[p..q] == [path[p], path[p + 1]];
    if path[p] == '.' && (p + 1 == |path| || path[p + 1] == '/') {
      NameLengthIs(s, 1);
    }
    if path[p] == '.' && p + 1 < |path| && path[p + 1] == '.' && (p + 2 == |path| || path[p + 2] == '/') {
      NameLengthIs(s, 2);
    }
  }

  /** Skipping a component that stands for a directory itself, or for its parent. */
  lemma SkipsDot(fs: Fs, stack: seq<string>, path: string, p: nat, q: nat, follow: bool, budget: nat)
    requires AtComponent(path, p) && p < |path| && q == p + NameLength(path[p..]) && q <= |path|
    ensures path[p..q] == "." ==> Remaining(fs, stack, path, p, follow, budget) == Remaining(fs, stack, path, q, follow, budget)
    ensures path[p..q] == ".." ==>
              Remaining(fs, stack, path, p, follow, budget) == Remaining(fs, Parent(stack), path, q, follow, budget)
  {
    FirstComponent(path, p, q);
    var comps := Components(path[p..]);
    assert comps[0] == path[p..q] && comps[1..] == Components(path[q..]);
  }

  /** What a component that names an entry leads to. */
  lemma EntersName(fs: Fs, stack: seq<string>, path: string, p: nat, q: nat, r: nat, follow: bool, budget: nat)
    requires AtComponent(path, p) && p < |path| && q == p + NameLength(path[p..]) && q <= r && AtComponent(path, r)
    requires (forall i :: q <= i < r ==> path[i] == '/') && Components(path[r..]) == Components(path[q..])
    requires Name(path[p..q])
    ensures var here := stack + [path[p..q]];
            var outcome := Remaining(fs, stack, path, p, follow, budget);
            if !follow && r == |path| then outcome == Done(here)
            else match fs.link(Text(here))
              case Some(text) =>
                if budget == 0 then outcome == Fail(ELOOP)
                else outcome == Restart(fs, [], (if Absolute(text) then [] else stack) + (Components(text) + Components(path[r..])),
                                        if r == |path| then text == "" || EndsInSlash(text) else EndsInSlash(path), follow, budget - 1)
              case None =>
                if path[r - 1] == '/' && Barrier(fs, Text(here)).Some? then outcome == Fail(Barrier(fs, Text(here)).value)
                else outcome == Remaining(fs, here, path, r, follow, budget)
  {
    FirstComponent(path, p, q);
    var comps := Components(path[p..]);
    assert comps[0] == path[p..q] && comps[1..] == Components(path[r..]);
    assert Components(path[r..]) == [] <==> r == |path| by {
      if r < |path| {
        FirstComponent(path, r, r + NameLength(path[r..]));
      }
    }
    if r == q {
      assert r == |path|;
      assert path[r - 1] == path[p..q][q - 1 - p] && path[p..q][q - 1 - p] in path[p..q];
    }
  }

  /** The starting directory as the caller passes it: none, the root, or a resolved path. */
  ghost predicate BaseIs(at: Option<string>, base: seq<string>) {
    Names(base) && match at
    case None => base == []
    case Some(text) => if text == "/" then base == [] else text == Text(base)
  }

  /** The body of the loop for a component that names an entry, up to the decision what to do next. */
  method EnterName(path: string, p: nat, buffer: string, ghost stack: seq<string>) returns (r: nat, out: string, ghost q: nat)
    requires AtComponent(path, p) && p < |path| && buffer == Text(stack)
    ensures p < q <= r && q == p + NameLength(path[p..]) && AtComponent(path, r)
    ensures (forall i :: q <= i < r ==> path[i] == '/') && Components(path[r..]) == Components(path[q..])
    ensures out == Text(stack + [path[p..q]]) && out == buffer + "/" + path[p..q]
  {
    out := buffer + "/";
    var e;
    e, out := CopyName(path, p, out);
    q := e;
    r := SkipSlashes(path, e);
    TextAppend(stack, path[p..q]);
  }

  /** The tests at the head of the loop: a "." is skipped, a ".." takes the last component off the buffer. */
  method SkipDots(path: string, p: nat, buffer: string, ghost stack: seq<string>, ghost fs: Fs, ghost follow: bool, ghost budget: nat)
    returns (skipped: bool, r: nat, out: string, ghost stack': seq<string>)
    requires AtComponent(path, p) && p < |path| && Names(stack) && buffer == Text(stack)
    ensures skipped ==>
              && p < r && AtComponent(path, r) && Names(stack') && out == Text(stack')
              && Remaining(fs, stack', path, r, follow, budget) == Remaining(fs, stack, path, p, follow, budget)
    ensures !skipped ==> Name(path[p..p + NameLength(path[p..])])
  {
    ghost var q := p + NameLength(path[p..]);
    DotTests(path, p, q);
    SkipsDot(fs, stack, path, p, q, follow, budget);
    FirstComponent(path, p, q);
    skipped, r, out, stack' := false, p, buffer, stack;
    if path[p] == '.' {
      if p + 1 == |path| || path[p + 1] == '/' {
        r := SkipSlashes(path, p + 1);
        skipped := true;
      } else if path[p + 1] == '.' && (p + 2 == |path| || path[p + 2] == '/') {
        out := DropLast(buffer, stack);
        stack' := Parent(stack);
        r := SkipSlashes(path, p + 2);
        skipped := true;
      }
    }
  }

  /** Building the text to start again with. */
  method Expand(buffer: string, link: string, path: string, r: nat, ghost dir: seq<string>) returns (expanded: string)
    requires buffer == Text(dir) && Names(dir) && AtComponent(path, r)
    ensures expanded != ""
    ensures Components(expanded) == (if Absolute(link) then [] else dir) + (Components(link) + Components(path[r..]))
    ensures EndsInSlash(expanded) == if r == |path| then link == "" || EndsInSlash(link) else EndsInSlash(path)
  {
    var rest := path[r..];
    expanded := buffer + "/" + link;
    if link != "" && link[0] == '/' {
      expanded := link;
    }
    assert expanded == Head(dir, link);
    if rest != "" {
      expanded := expanded + "/" + rest;
      assert EndsInSlash(rest) == EndsInSlash(path);
    }
    assert expanded == Spliced(dir, link, rest);
    SplicedComponents(dir, link, rest);
    SplicedEnd(dir, link, rest);
  }

  /** How one round of the loop ends: at the next component, with an error, or with a text to start again with. */
  datatype Verdict = Move(p: nat, out: string) | Stop(errno: int) | Again(expanded: string)

  ghost predicate VerdictOk(v: Verdict, fs: Fs, stack: seq<string>, stack': seq<string>, path: string, p: nat, follow: bool, budget: nat)
    requires p <= |path|
  {
    match v
    case Move(r, out) =>
      && p < r && AtComponent(path, r) && Names(stack') && out == Text(stack')
      && Remaining(fs, stack, path, p, follow, budget) == Remaining(fs, stack', path, r, follow, budget)
    case Stop(e) => Remaining(fs, stack, path, p, follow, budget) == Fail(e)
    case Again(expanded) =>
      && budget > 0 && expanded != ""
      && Remaining(fs, stack, path, p, follow, budget) == Restarting(fs, [], expanded, follow, budget - 1)
  }

  /** The loop body for a component that names an entry. */
  method Enter(fs: Fs, path: string, p: nat, buffer: string, follow: bool, budget: nat, ghost stack: seq<string>)
    returns (v: Verdict, ghost stack': seq<string>)
    requires AtComponent(path, p) && p < |path| && Names(stack) && buffer == Text(stack)
    requires Name(path[p..p + NameLength(path[p..])])
    ensures VerdictOk(v, fs, stack, stack', path, p, follow, budget)
  {
    ghost var q;
    var r, text;
    r, text, q := EnterName(path, p, buffer, stack);
    EntersName(fs, stack, path, p, q, r, follow, budget);
    stack' := stack + [path[p..q]];
    if follow || r < |path| {
      var link := fs.link(text);
      if link.Some? {
        if budget == 0 {
          return Stop(ELOOP), stack';
        }
        var expanded := Expand(buffer, link.value, path, r, stack);
        return Again(expanded), stack';
      }
      if path[r - 1] == '/' {
        var barrier := Barrier(fs, text);
        if barrier.Some? {
          return Stop(barrier.value), stack';
        }
      }
    } else {
      assert Remaining(fs, stack', path, r, follow, budget) == Done(stack');
    }
    return Move(r, text), stack';
  }

  /** How the loop ends: at the end of the path, with an error, or with a text to start again with. */
  ghost predicate WalkOk(v: Verdict, fs: Fs, stack: seq<string>, stack': seq<string>, path: string, p: nat, follow: bool, budget: nat)
    requires p <= |path|
  {
    match v
    case Move(r, out) =>
      && r == |path| && Names(stack') && out == Text(stack')
      && Remaining(fs, stack, path, p, follow, budget) == Remaining(fs, stack', path, r, follow, budget)
    case Stop(e) => Remaining(fs, stack, path, p, follow, budget) == Fail(e)
    case Again(expanded) =>
      && budget > 0 && expanded != ""
      && Remaining(fs, stack, path, p, follow, budget) == Restarting(fs, [], expanded, follow, budget - 1)
  }

  /** The loop over the components. */
  method Walk(fs: Fs, path: string, start: nat, buffer: string, follow: bool, budget: nat, ghost base: seq<string>)
    returns (v: Verdict, ghost stack: seq<string>)
    requires AtComponent(path, start) && Names(base) && buffer == Text(base)
    ensures WalkOk(v, fs, base, stack, path, start, follow, budget)
  {
    stack := base;
    var p, out := start, buffer;
    while p < |path|
      invariant AtComponent(path, p) && Names(stack) && out == Text(stack)
      invariant Remaining(fs, base, path, start, follow, budget) == Remaining(fs, stack, path, p, follow, budget)
      decreases |path| - p
    {
      var skipped, r, text;
      ghost var stack';
      skipped, r, text, stack' := SkipDots(path, p, out, stack, fs, follow, budget);
      if skipped {
        p, out, stack := r, text, stack';
        continue;
      }
      v, stack' := Enter(fs, path, p, out, follow, budget, stack);
      if !v.Move? {
        return;
      }
      p, out, stack := v.p, v.out, stack';
    }
    v := Move(p, out);
  }

  /** __path_normalize; `outcome` is what the call has to report. */
  method NormalizeFrom(fs: Fs, at: Option<string>, path: string, follow: bool, levels: nat, ghost base: seq<string>)
    returns (err: int, out: string, ghost outcome: Outcome)
    requires levels <= MAX_EXPANSIONS && BaseIs(at, base)
    ensures path == "" ==> err == ENOENT
    ensures path != "" ==> Reports(err, out, outcome)
    ensures outcome == Restarting(fs, base, path, follow, MAX_EXPANSIONS - levels)
    decreases MAX_EXPANSIONS - levels
  {
    out := "";
    var budget := MAX_EXPANSIONS - levels;
    outcome := Restarting(fs, base, path, follow, budget);
    if path == "" {
      return ENOENT, out, outcome;
    }
    if at.Some? && at.value != "/" {
      out := at.value;
    }
    assert path[0..] == path;
    var p := SkipSlashes(path, 0);
    var v;
    ghost var stack;
    v, stack := Walk(fs, path, p, out, follow, budget, base);
    match v {
      case Move(r, text) =>
        return 0, text, outcome;
      case Stop(e) =>
        return e, out, outcome;
      case Again(expanded) =>
        ghost var again;
        err, out, again := NormalizeFrom(fs, None, expanded, follow, levels + 1, []);
        return err, out, outcome;
    }
  }

  /** path_normalize, once the starting directory is known; `limit` is any number of links a system may follow. */
  method Normalize(fs: Fs, at: Option<string>, path: string, follow: bool, ghost base: seq<string>, ghost limit: nat)
    returns (err: int, out: string)
    requires BaseIs(at, base) && limit >= SYMLOOP_MIN
    ensures path == "" ==> err == ENOENT
    ensures path != "" ==> Reports(err, out, Restarting(fs, base, path, follow, MAX_EXPANSIONS))
    ensures path != "" && Solid(fs, base) ==>
              Reports(err, out, InPlace(fs, base, Components(path), path[|path| - 1] == '/', follow, MAX_EXPANSIONS))
    ensures path != "" && Solid(fs, base) && KeepsToStandard(fs, base, path, follow, limit) ==>
              Reports(err, out, Standard(fs, base, Components(path), EndsInSlash(path), follow, limit))
    ensures path != "" && Solid(fs, base) && err == 0 ==> exists stack :: Names(stack) && out == Text(stack)
  {
    ghost var outcome;
    err, out, outcome := NormalizeFrom(fs, at, path, follow, 0, base);
    if Solid(fs, base) {
      ResolutionIsStandardIff(fs, base, path, follow, limit);
      ComponentsArePlain(path);
      RestartIsInPlace(fs, base, Components(path), EndsInSlash(path), follow, MAX_EXPANSIONS);
      ResultIsClean(fs, base, Components(path), EndsInSlash(path), follow, MAX_EXPANSIONS);
      FailuresAreNegative(fs, base, Components(path), EndsInSlash(path), follow, MAX_EXPANSIONS);
    }
  }

  lemma {:induction false} FailuresAreNegative(fs: Fs, stack: seq<string>, comps: seq<string>, slash: bool, follow: bool, budget: nat)
    ensures var r := InPlace(fs, stack, comps, slash, follow, budget); r.Fail? ==> r.errno in {ELOOP, ENOTDIR, EACCES}
    decreases budget, |comps|
  {
    if comps != [] {
      var c, rest := comps[0], comps[1..];
      var here := stack + [c];
      if c == "." {
        FailuresAreNegative(fs, stack, rest, slash, follow, budget);
      } else if c == ".." {
        FailuresAreNegative(fs, Parent(stack), rest, slash, follow, budget);
      } else if follow || rest != [] {
        match fs.link(Text(here))
        case Some(text) =>
          if budget > 0 {
            FailuresAreNegative(fs, if Absolute(text) then [] else stack, Components(text) + rest,
                                if rest == [] then EndsInSlash(text) else slash, follow, budget - 1);
          }
        case None => FailuresAreNegative(fs, here, rest, slash, follow, budget);
      }
    }
  }
}
