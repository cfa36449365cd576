/** Slash-separated paths as strings and as component lists: splitting, joining, lexical cleaning
    and the directory of a path, as the Unix path functions of the standard library define them. */
module Paths {
  import opened Seqs
  import opened Strings

  /** The pieces between slashes; there is always at least one. */
  function Split(s: string): (parts: seq<string>)
    ensures |parts| > 0
    ensures forall i :: 0 <= i < |parts| ==> '/' !in parts[i]
  {
    if s == "" then [""] else
      var rest := Split(s[1..]);
      if s[0] == '/' then [""] + rest else [[s[0]] + rest[0]] + rest[1..]
  }

  function Join(parts: seq<string>): string {
    if |parts| == 0 then "" else if |parts| == 1 then parts[0] else parts[0] + "/" + Join(parts[1..])
  }

  lemma {:induction false} SplitSlash(a: string, b: string)
    ensures Split(a + "/" + b) == Split(a) + Split(b)
  {
    if a == "" {
      assert (a + "/" + b)[1..] == b;
    } else {
      assert (a + "/" + b)[1..] == a[1..] + "/" + b;
      SplitSlash(a[1..], b);
    }
  }

  lemma {:induction false} SplitWhole(s: string)
    requires '/' !in s
    ensures Split(s) == [s]
  {
    if s != "" {
      SplitWhole(s[1..]);
      assert [s[0]] + s[1..] == s;
    }
  }

  /** Joining and splitting slash-free pieces is the identity. */
  lemma {:induction false} SplitJoin(parts: seq<string>)
    requires |parts| > 0 && forall i :: 0 <= i < |parts| ==> '/' !in parts[i]
    ensures Split(Join(parts)) == parts
  {
    SplitWhole(parts[0]);
    if |parts| > 1 {
      SplitSlash(parts[0], Join(parts[1..]));
      SplitJoin(parts[1..]);
    }
  }

  lemma {:induction false} JoinConcat(a: seq<string>, b: seq<string>)
    requires |a| > 0 && |b| > 0
    ensures Join(a + b) == Join(a) + "/" + Join(b)
  {
    if |a| == 1 {
      assert (a + b)[1..] == b;
    } else {
      assert (a + b)[1..] == a[1..] + b;
      JoinConcat(a[1..], b);
      assert (a[0] + "/" + Join(a[1..])) + "/" + Join(b) == a[0] + "/" + (Join(a[1..]) + "/" + Join(b));
    }
  }

  lemma {:induction false} JoinSplit(s: string)
    ensures Join(Split(s)) == s
  {
    if s != "" {
      JoinSplit(s[1..]);
      var rest := Split(s[1..]);
      if s[0] == '/' {
        assert ([""] + rest)[1..] == rest;
        assert "" + "/" + Join(rest) == s;
      } else {
        var parts := [[s[0]] + rest[0]] + rest[1..];
        assert parts[1..] == rest[1..];
        if |rest| > 1 {
          assert ([s[0]] + rest[0]) + "/" + Join(rest[1..]) == [s[0]] + (rest[0] + "/" + Join(rest[1..]));
        }
        assert s == [s[0]] + s[1..];
      }
    }
  }

  // ---------- lexical cleaning ----------

  /** A component that names a child. */
  predicate Plain(part: string) {
    part != "" && part != "." && part != ".." && '/' !in part
  }

  predicate AllPlain(parts: seq<string>) {
    forall i :: 0 <= i < |parts| ==> Plain(parts[i])
  }

  /** Dropping empty and "." components and letting ".." take back the component before it; at the
      root ".." has nothing to take back. */
  function Reduce(parts: seq<string>, rooted: bool): seq<string> {
    if parts == [] then [] else
      var stack := Reduce(parts[..|parts| - 1], rooted);
      var part := parts[|parts| - 1];
      if part == "" || part == "." then stack
      else if part == ".." then
        if stack != [] && stack[|stack| - 1] != ".." then stack[..|stack| - 1]
        else if rooted then stack
        else stack + [part]
      else stack + [part]
  }

  function Rooted(path: string): bool { path != "" && path[0] == '/' }

  function Clean(path: string): string {
    var parts := Reduce(Split(path), Rooted(path));
    if Rooted(path) then "/" + Join(parts) else if parts == [] then "." else Join(parts)
  }

  /** The library's Join of two elements. */
  function JoinPath(a: string, b: string): string {
    if a == "" then (if b == "" then "" else Clean(b)) else if b == "" then Clean(a) else Clean(a + "/" + b)
  }

  /** The library's Dir. */
  function Dir(path: string): string {
    Clean(path[..LastIndex(path, '/') + 1])
  }

  /** A path names the node it leads to from the root; relative paths start at the working directory. */
  function Locate(cwd: seq<string>, path: string): seq<string> {
    Reduce(if Rooted(path) then Split(path) else cwd + Split(path), true)
  }

  lemma {:induction false} ReduceConcatPlain(parts: seq<string>, plain: seq<string>, rooted: bool)
    requires AllPlain(plain)
    ensures Reduce(parts + plain, rooted) == Reduce(parts, rooted) + plain
  {
    if plain == [] {
      assert parts + plain == parts;
      NilRight(Reduce(parts, rooted));
    } else {
      var n := |plain| - 1;
      assert (parts + plain)[..|parts + plain| - 1] == parts + plain[..n];
      ReduceConcatPlain(parts, plain[..n], rooted);
      assert Plain(plain[n]);
      assert Reduce(parts, rooted) + plain[..n] + [plain[n]] == Reduce(parts, rooted) + plain;
    }
  }

  /** What is left at the root is plain. */
  lemma {:induction false} RootedReducesToPlain(parts: seq<string>)
    requires forall i :: 0 <= i < |parts| ==> '/' !in parts[i]
    ensures AllPlain(Reduce(parts, true))
  {
    if parts != [] {
      RootedReducesToPlain(parts[..|parts| - 1]);
    }
  }

  /** An absolute path in clean form leads to the components it spells. */
  lemma LocateSpelled(cwd: seq<string>, plain: seq<string>)
    requires AllPlain(plain)
    ensures Rooted("/" + Join(plain)) && Locate(cwd, "/" + Join(plain)) == plain
  {
    var path := "/" + Join(plain);
    SplitSlash("", Join(plain));
    assert "" + "/" + Join(plain) == path;
    if plain == [] {
      assert Split(path) == ["", ""];
      assert ["", ""][..1] == [""] && [""][..0] == [];
    } else {
      SplitJoin(plain);
      assert Split(path) == [""] + plain;
      ReduceConcatPlain([""], plain, true);
      assert [""][..0] == [];
    }
  }

  lemma CleanSpelled(plain: seq<string>)
    requires AllPlain(plain)
    ensures Clean("/" + Join(plain)) == "/" + Join(plain)
  {
    LocateSpelled([], plain);
  }

  /** Joining a relative name to an absolute directory. */
  lemma JoinLocates(dir: string, name: string)
    requires Rooted(dir)
    ensures JoinPath(dir, name) == "/" + Join(Reduce(Split(dir) + Split(name), true))
  {
    if name != "" {
      SplitSlash(dir, name);
    } else {
      assert (Split(dir) + [""])[..|Split(dir)|] == Split(dir);
    }
  }

  // ---------- relative paths ----------

  /** What cleaning leaves: no empty part, no "." and no slash. */
  predicate Tidy(parts: seq<string>) {
    forall i :: 0 <= i < |parts| ==> parts[i] != "" && parts[i] != "." && '/' !in parts[i]
  }

  lemma {:induction false} ReduceIsTidy(parts: seq<string>, rooted: bool)
    requires forall i :: 0 <= i < |parts| ==> '/' !in parts[i]
    ensures Tidy(Reduce(parts, rooted))
  {
    if parts != [] {
      ReduceIsTidy(parts[..|parts| - 1], rooted);
    }
  }

  /** What one more component does to a reduced path. */
  function Push(stack: seq<string>, part: string, rooted: bool): seq<string> {
    if part == "" || part == "." then stack
    else if part == ".." && stack != [] && stack[|stack| - 1] != ".." then stack[..|stack| - 1]
    else if part == ".." && rooted then stack
    else stack + [part]
  }

  lemma ReduceSnoc(parts: seq<string>, part: string, rooted: bool)
    ensures Reduce(parts + [part], rooted) == Push(Reduce(parts, rooted), part, rooted)
  {
    assert (parts + [part])[..|parts|] == parts;
  }

  lemma PushPlain(stack: seq<string>, part: string)
    requires part != "" && part != "." && part != ".."
    ensures Push(Push(stack, part, true), "..", true) == stack
  {
    assert (stack + [part])[..|stack|] == stack;
  }

  lemma PushedPop(base: seq<string>, stack: seq<string>)
    requires Tidy(stack) && stack != [] && stack[|stack| - 1] != ".."
    ensures Reduce(base + stack[..|stack| - 1], true) == Push(Reduce(base + stack, true), "..", true)
  {
    var init, last := stack[..|stack| - 1], stack[|stack| - 1];
    assert base + init + [last] == base + stack;
    ReduceSnoc(base + init, last, true);
    PushPlain(Reduce(base + init, true), last);
  }

  lemma PushedAppend(base: seq<string>, stack: seq<string>, part: string)
    ensures Reduce(base + (stack + [part]), true) == Push(Reduce(base + stack, true), part, true)
  {
    assert base + (stack + [part]) == base + stack + [part];
    ReduceSnoc(base + stack, part, true);
  }

  lemma Pushed(base: seq<string>, stack: seq<string>, part: string)
    requires Tidy(stack)
    ensures Reduce(base + Push(stack, part, false), true) == Push(Reduce(base + stack, true), part, true)
  {
    if part == ".." && stack != [] && stack[|stack| - 1] != ".." {
      PushedPop(base, stack);
    } else if part != "" && part != "." {
      PushedAppend(base, stack, part);
    }
  }

  /** Reducing a relative path first does not change where it leads from a directory. */
  lemma {:induction false} ReduceTwice(base: seq<string>, parts: seq<string>)
    requires forall i :: 0 <= i < |parts| ==> '/' !in parts[i]
    ensures Reduce(base + Reduce(parts, false), true) == Reduce(base + parts, true)
  {
    if parts != [] {
      var init, part := parts[..|parts| - 1], parts[|parts| - 1];
      ReduceTwice(base, init);
      ReduceIsTidy(init, false);
      Pushed(base, Reduce(init, false), part);
      ReduceSnoc(init, part, false);
      ReduceSnoc(base + init, part, true);
      Snoc(base, parts);
    }
  }

  lemma Snoc(base: seq<string>, parts: seq<string>)
    requires parts != []
    ensures parts[..|parts| - 1] + [parts[|parts| - 1]] == parts
    ensures base + parts[..|parts| - 1] + [parts[|parts| - 1]] == base + parts
  {
  }

  lemma {:induction false} RootedReducesTwice(parts: seq<string>)
    requires forall i :: 0 <= i < |parts| ==> '/' !in parts[i]
    ensures Reduce(Reduce(parts, true), true) == Reduce(parts, true)
  {
    RootedReducesToPlain(parts);
    ReduceConcatPlain([], Reduce(parts, true), true);
    assert [] + Reduce(parts, true) == Reduce(parts, true);
  }

  /** A trailing slash does not change what a clean absolute path cleans to. */
  lemma CleanTrailingSlash(plain: seq<string>)
    requires AllPlain(plain)
    ensures Clean("/" + Join(plain) + "/") == "/" + Join(plain)
  {
    var head := "/" + Join(plain);
    SplitSlash(head, "");
    assert head + "/" + "" == head + "/";
    assert (Split(head) + [""])[..|Split(head)|] == Split(head);
    LocateSpelled([], plain);
  }

  /** What precedes the last slash of a spelled path. */
  function HeadOf(init: seq<string>): string {
    if init == [] then "" else "/" + Join(init)
  }

  lemma HeadCleans(init: seq<string>)
    requires AllPlain(init)
    ensures Clean(HeadOf(init) + "/") == "/" + Join(init)
  {
    if init == [] {
      CleanSpelled(init);
      assert HeadOf(init) + "/" == "/" + Join(init);
    } else {
      CleanTrailingSlash(init);
    }
  }

  /** Whatever precedes the last slash, cleaned. */
  lemma DirAtLast(path: string, head: string, last: string)
    requires path == head + "/" + last && '/' !in last
    ensures Dir(path) == Clean(head + "/")
  {
    LastIndexOf(head, '/', last);
    assert path == head + ['/'] + last;
    assert path[..LastIndex(path, '/') + 1] == head + "/";
  }

  /** A clean absolute path, at its last slash. */
  lemma SpelledHead(init: seq<string>, last: string)
    ensures "/" + Join(init + [last]) == HeadOf(init) + "/" + last
  {
    if init == [] {
      assert [] + [last] == [last];
    } else {
      JoinConcat(init, [last]);
    }
  }

  lemma DirOfSpelled(path: string, init: seq<string>, last: string)
    requires AllPlain(init) && '/' !in last && path == HeadOf(init) + "/" + last
    ensures Dir(path) == "/" + Join(init)
  {
    HeadCleans(init);
    DirAtLast(path, HeadOf(init), last);
  }

  lemma SpelledAtLast(plain: seq<string>) returns (init: seq<string>, last: string)
    requires AllPlain(plain) && plain != []
    ensures init == plain[..|plain| - 1] && AllPlain(init) && '/' !in last
    ensures "/" + Join(plain) == HeadOf(init) + "/" + last
  {
    init, last := plain[..|plain| - 1], plain[|plain| - 1];
    assert Plain(last) && plain == init + [last];
    SpelledHead(init, last);
  }

  /** The directory of a clean absolute path drops its last component. */
  lemma DirSpelled(plain: seq<string>)
    requires AllPlain(plain) && plain != []
    ensures Dir("/" + Join(plain)) == "/" + Join(plain[..|plain| - 1])
  {
    var init, last := SpelledAtLast(plain);
    DirOfSpelled("/" + Join(plain), init, last);
  }

  // ---------- where cleaned and joined paths lead ----------

  lemma JoinIsRelative(parts: seq<string>)
    requires Tidy(parts) && parts != []
    ensures Split(Join(parts)) == parts && !Rooted(Join(parts))
  {
    SplitJoin(parts);
    assert parts[0] != "" && '/' !in parts[0];
    assert Join(parts)[0] == parts[0][0];
  }

  /** Cleaning a path, absolute or relative, does not change where it leads from any directory. */
  lemma CleanLeadsTheSame(cwd: seq<string>, path: string)
    ensures Locate(cwd, Clean(path)) == Locate(cwd, path)
  {
    var parts := Reduce(Split(path), Rooted(path));
    if Rooted(path) {
      RootedReducesToPlain(Split(path));
      LocateSpelled(cwd, parts);
    } else {
      ReduceTwice(cwd, Split(path));
      ReduceIsTidy(Split(path), false);
      if parts == [] {
        SplitWhole(".");
        ReduceSnoc(cwd, ".", true);
        NilRight(cwd);
      } else {
        JoinIsRelative(parts);
      }
    }
  }

  /** What cleaning leaves of a relative path: first steps up, then plain names. */
  lemma {:induction false} ReducedShape(parts: seq<string>) returns (n: nat)
    requires forall i :: 0 <= i < |parts| ==> '/' !in parts[i]
    ensures n <= |Reduce(parts, false)|
    ensures forall i :: 0 <= i < n ==> Reduce(parts, false)[i] == ".."
    ensures forall i :: n <= i < |Reduce(parts, false)| ==>
              var part := Reduce(parts, false)[i];
              part != "" && part != "." && part != ".." && '/' !in part
  {
    n := 0;
    if parts != [] {
      var init, part := parts[..|parts| - 1], parts[|parts| - 1];
      n := ReducedShape(init);
      assert parts == init + [part];
      ReduceSnoc(init, part, false);
      if part == ".." && n == |Reduce(init, false)| {
        n := n + 1;
      }
    }
  }

  lemma {:induction false} ReduceHead(x: seq<string>, y: seq<string>)
    requires forall i :: 0 <= i < |x| ==> '/' !in x[i]
    ensures Reduce(Reduce(x, true) + y, true) == Reduce(x + y, true)
  {
    if y == [] {
      NilRight(Reduce(x, true));
      NilRight(x);
      RootedReducesTwice(x);
    } else {
      var n := |y| - 1;
      ReduceHead(x, y[..n]);
      Snoc(x, y);
      Snoc(Reduce(x, true), y);
      ReduceSnoc(x + y[..n], y[n], true);
      ReduceSnoc(Reduce(x, true) + y[..n], y[n], true);
    }
  }

  /** The components a path spells, from the root. */
  function FromRoot(cwd: seq<string>, path: string): seq<string> {
    if Rooted(path) then Split(path) else cwd + Split(path)
  }

  lemma FromRootJoined(cwd: seq<string>, dir: string, name: string)
    requires dir != ""
    ensures FromRoot(cwd, dir + "/" + name) == FromRoot(cwd, dir) + Split(name)
  {
    SplitSlash(dir, name);
    Assoc(cwd, Split(dir), Split(name));
  }

  /** Joining a name to a directory, absolute or relative, leads where the name leads from the directory. */
  lemma JoinLeads(cwd: seq<string>, dir: string, name: string)
    requires dir != "" && forall i :: 0 <= i < |cwd| ==> '/' !in cwd[i]
    ensures Locate(cwd, JoinPath(dir, name)) == Reduce(Locate(cwd, dir) + Split(name), true)
  {
    ReduceHead(FromRoot(cwd, dir), Split(name));
    if name == "" {
      CleanLeadsTheSame(cwd, dir);
      ReduceSnoc(FromRoot(cwd, dir), "", true);
    } else {
      CleanLeadsTheSame(cwd, dir + "/" + name);
      FromRootJoined(cwd, dir, name);
    }
  }

  /** With no directory to join to, the name alone leads the way; nothing joined to nothing is nothing. */
  lemma JoinToNothing(cwd: seq<string>, name: string)
    ensures if name == "" then JoinPath("", name) == "" else Locate(cwd, JoinPath("", name)) == Locate(cwd, name)
  {
    CleanLeadsTheSame(cwd, name);
  }

  /** A relative path in clean form leads down from the working directory. */
  lemma LocateRelative(cwd: seq<string>, rel: seq<string>)
    requires AllPlain(cwd) && AllPlain(rel) && rel != []
    ensures Locate(cwd, Join(rel)) == cwd + rel
  {
    assert forall i :: 0 <= i < |rel| ==> Plain(rel[i]);
    JoinIsRelative(rel);
    ReduceConcatPlain([], cwd + rel, true);
    assert [] + (cwd + rel) == cwd + rel;
  }

  lemma RelativeSlashCleans(init: seq<string>)
    requires AllPlain(init) && init != []
    ensures Clean(Join(init) + "/") == Join(init)
  {
    assert forall i :: 0 <= i < |init| ==> Plain(init[i]);
    JoinIsRelative(init);
    SplitSlash(Join(init), "");
    assert Join(init) + "/" + "" == Join(init) + "/";
    ReduceSnoc(init, "", false);
    ReduceConcatPlain([], init, false);
    assert [] + init == init;
  }

  /** The directory of a relative path in clean form. */
  lemma DirOfName(name: string)
    requires Plain(name)
    ensures Dir(name) == "."
  {
    assert name[..LastIndex(name, '/') + 1] == "";
    SplitWhole("");
    assert [""][..0] == [];
  }

  lemma DirOfJoined(init: seq<string>, last: string)
    requires AllPlain(init) && init != [] && Plain(last)
    ensures Dir(Join(init) + "/" + last) == Join(init)
  {
    DirAtLast(Join(init) + "/" + last, Join(init), last);
    RelativeSlashCleans(init);
  }

  // ---------- string prefixes of paths ----------

  predicate HasPrefix(s: string, prefix: string) { prefix <= s }

  /** A string prefix of joined components, in terms of the components: all but the last agree, and
      the last is extended, possibly by nothing. */
  predicate ExtendsLast(path: seq<string>, base: seq<string>) {
    base == [] ||
    (|base| <= |path| && base[..|base| - 1] == path[..|base| - 1] && base[|base| - 1] <= path[|base| - 1])
  }

  lemma PrefixExtends(path: seq<string>, base: seq<string>)
    requires base <= path
    ensures ExtendsLast(path, base)
  {
    assert forall i :: 0 <= i < |base| ==> base[i] == path[i];
    if base != [] {
      assert base[..|base| - 1] == path[..|base| - 1];
    }
  }

  /** Such a path is not below `base` exactly when the extension is proper. */
  lemma ProperExtensionIff(path: seq<string>, base: seq<string>)
    requires ExtendsLast(path, base)
    ensures !(base <= path) <==> base != [] && |base| <= |path| && base[|base| - 1] < path[|base| - 1]
  {
    if base != [] {
      var n := |base| - 1;
      assert base == base[..n] + [base[n]];
      assert path == path[..n] + [path[n]] + path[n + 1..];
      if base[n] == path[n] {
        assert base <= path;
      }
    }
  }

  lemma PrefixOfConcat(a: string, b: string, s: string)
    ensures a + b <= a + s <==> b <= s
  {
    assert (a + s)[|a|..] == s;
    assert (a + b)[|a|..] == b;
    if a + b <= a + s {
      assert (a + s)[..|a + b|] == a + b;
      assert b == s[..|b|];
    }
  }

  /** Two joined paths can only agree up to a slash when their first components agree. */
  lemma SameFirst(a: string, s: string, b: string, t: string)
    requires '/' !in a && '/' !in b
    requires a + "/" + s <= b + "/" + t
    ensures a == b
  {
    var x, y := a + "/" + s, b + "/" + t;
    IndexOfConcat(a, '/', "/" + s);
    Assoc(a, "/", s);
    IndexOfConcat(b, '/', "/" + t);
    Assoc(b, "/", t);
    IndexOfPrefix(x, y, '/');
    assert x[..|a|] == a && y[..|a|] == b;
  }

  lemma NoPrefix(a: string, b: string, c: char)
    requires c in a && c !in b
    ensures !(a <= b)
  {
    var i :| 0 <= i < |a| && a[i] == c;
    assert |a| <= |b| ==> b[i] in b && b[..|a|][i] != a[i];
  }

  lemma {:induction false} JoinedPrefix(path: seq<string>, base: seq<string>)
    requires AllPlain(path) && AllPlain(base)
    ensures Join(base) <= Join(path) <==> ExtendsLast(path, base)
  {
    if base == [] {
    } else if path == [] {
      assert Plain(base[0]);
      assert |Join(base)| > |Join(path)|;
    } else if |base| == 1 {
      FirstPrefix(path, base[0]);
    } else if |path| == 1 {
      assert Plain(path[0]);
      assert Join(base)[|base[0]|] == '/';
      NoPrefix(Join(base), Join(path), '/');
    } else {
      var a, s, b, t := base[0], Join(base[1..]), path[0], Join(path[1..]);
      assert Plain(a) && Plain(b);
      JoinedPrefix(path[1..], base[1..]);
      if a == b {
        PrefixOfConcat(a + "/", s, t);
        assert ExtendsLast(path, base) <==> ExtendsLast(path[1..], base[1..]) by {
          TailExtends(path, base);
        }
      } else {
        OtherFirst(path, base);
      }
    }
  }

  lemma OtherFirst(path: seq<string>, base: seq<string>)
    requires AllPlain(path) && AllPlain(base) && |base| > 1 && |path| > 1 && base[0] != path[0]
    ensures !(Join(base) <= Join(path)) && !ExtendsLast(path, base)
  {
    assert Plain(base[0]) && Plain(path[0]);
    var a, s, b, t := base[0], Join(base[1..]), path[0], Join(path[1..]);
    if a + "/" + s <= b + "/" + t {
      SameFirst(a, s, b, t);
    }
    assert |base| <= |path| ==> base[..|base| - 1][0] == base[0] && path[..|base| - 1][0] == path[0];
  }

  lemma TailExtends(path: seq<string>, base: seq<string>)
    requires |base| > 1 && |path| > 1 && path[0] == base[0]
    ensures ExtendsLast(path, base) <==> ExtendsLast(path[1..], base[1..])
  {
    var n := |base| - 1;
    if n < |path| {
      assert base[1..][..n - 1] == base[1..n] && path[1..][..n - 1] == path[1..n];
      assert base[..n] == [base[0]] + base[1..n] && path[..n] == [path[0]] + path[1..n];
    }
  }

  lemma FirstPrefix(path: seq<string>, first: string)
    requires AllPlain(path) && path != [] && Plain(first)
    ensures first <= Join(path) <==> ExtendsLast(path, [first])
  {
    var j := Join(path);
    assert path[0] <= j;
    assert ExtendsLast(path, [first]) <==> first <= path[0];
    if |first| <= |path[0]| {
      assert path[0][..|first|] == j[..|first|];
    } else {
      assert |path| > 1 ==> j[|path[0]|] == '/';
      assert first[|path[0]|] in first;
      assert |first| <= |j| ==> j[..|first|][|path[0]|] != first[|path[0]|];
    }
  }
}
