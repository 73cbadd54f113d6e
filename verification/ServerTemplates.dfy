/** src/ServerTemplate.js: a template that reads its input from a file under a root
    directory. Its path comes from a request's URL; a path ending in `/` names the
    directory's `/index.html`, and runs of dots are collapsed before the path is joined
    to the root. */
module ServerTemplates {
  import opened Values
  import opened Generator
  import opened Scanner
  import Templates

  const DEFAULT_PATH: string := "/index.html"

  /** The trailing-slash rule of `getTemplateByFilename`: an id ending in `/` names the
      index file of that directory; any other id, the empty one included, is kept. */
  function DefaultedPath(id: string): (r: string)
    ensures |id| > 0 && id[|id| - 1] == '/' ==> r == id + DEFAULT_PATH
    ensures !(|id| > 0 && id[|id| - 1] == '/') ==> r == id
    ensures |r| == 0 || r[|r| - 1] != '/'
  {
    if |id| > 0 && id[|id| - 1] == '/' then id + DEFAULT_PATH else id
  }

  /** Defaulting a defaulted path changes nothing. */
  lemma DefaultedPathIdempotent(id: string)
    ensures DefaultedPath(DefaultedPath(id)) == DefaultedPath(id)
  {
    var r := DefaultedPath(id);
    assert |r| == 0 || r[|r| - 1] != '/';
  }

  /** A directory id keeps its slash and gains the index file's, so `a/` names
      `a//index.html`. */
  lemma DirectoryId()
    ensures DefaultedPath("a/") == "a//index.html"
  {
  }

  /** `p` without its leading dots. */
  function DropDots(p: string): (r: string)
    ensures |r| <= |p| && r == p[|p| - |r|..]
    ensures r == [] || r[0] != '.'
    ensures Undotted(r) == Undotted(p)
  {
    if p != [] && p[0] == '.' then DropDots(p[1..]) else p
  }

  /** `p.replace(/\.\.+/g, '.')`: scanning from the left, every run of two or more dots
      becomes a single dot; everything else is copied. */
  function CollapseDots(p: string): (r: string)
    ensures p != [] ==> r != [] && r[0] == p[0]
    ensures |r| <= |p|
    decreases |p|
  {
    if p == [] then []
    else if |p| > 1 && p[0] == '.' && p[1] == '.' then ['.'] + CollapseDots(DropDots(p))
    else [p[0]] + CollapseDots(p[1..])
  }

  /** `p` with every dot deleted. */
  function Undotted(p: string): string
  {
    if p == [] then [] else (if p[0] == '.' then [] else [p[0]]) + Undotted(p[1..])
  }

  /** No two consecutive dots. */
  predicate NoDoubleDots(p: string)
  {
    forall k :: 0 <= k < |p| - 1 ==> !(p[k] == '.' && p[k + 1] == '.')
  }

  /** The collapse leaves no `..` behind. */
  lemma {:induction false} CollapseNoDoubleDots(p: string)
    ensures NoDoubleDots(CollapseDots(p))
    decreases |p|
  {
    if p == [] {
    } else if |p| > 1 && p[0] == '.' && p[1] == '.' {
      var rest := DropDots(p);
      CollapseNoDoubleDots(rest);
      assert CollapseDots(p) == ['.'] + CollapseDots(rest);
    } else {
      CollapseNoDoubleDots(p[1..]);
      var r := CollapseDots(p);
      assert r == [p[0]] + CollapseDots(p[1..]);
      if p[0] == '.' && |p| > 1 {
        assert p[1..][0] != '.';
      }
    }
  }

  /** The collapse only deletes dots: the other characters are kept, in order. */
  lemma {:induction false} CollapseKeepsOthers(p: string)
    ensures Undotted(CollapseDots(p)) == Undotted(p)
    decreases |p|
  {
    if p == [] {
    } else if |p| > 1 && p[0] == '.' && p[1] == '.' {
      CollapseKeepsOthers(DropDots(p));
      assert (['.'] + CollapseDots(DropDots(p)))[1..] == CollapseDots(DropDots(p));
    } else {
      CollapseKeepsOthers(p[1..]);
      assert ([p[0]] + CollapseDots(p[1..]))[1..] == CollapseDots(p[1..]);
    }
  }

  /** A path without `..` is left as it is. */
  lemma {:induction false} CollapseIdentity(p: string)
    requires NoDoubleDots(p)
    ensures CollapseDots(p) == p
    decreases |p|
  {
    if p != [] {
      assert !(|p| > 1 && p[0] == '.' && p[1] == '.');
      assert NoDoubleDots(p[1..]) by {
        forall k | 0 <= k < |p[1..]| - 1
          ensures !(p[1..][k] == '.' && p[1..][k + 1] == '.')
        {
          assert p[1..][k] == p[k + 1] && p[1..][k + 1] == p[k + 2];
        }
      }
      CollapseIdentity(p[1..]);
    }
  }

  /** Collapsing twice is collapsing once. */
  lemma CollapseIdempotent(p: string)
    ensures CollapseDots(CollapseDots(p)) == CollapseDots(p)
  {
    CollapseNoDoubleDots(p);
    CollapseIdentity(CollapseDots(p));
  }

  /** What `compile(use_cached, next)` goes on to do. */
  datatype Step =
    | UseCached       // `next` is called and nothing else happens
    | CompileInput    // the input is compiled, then `next` is called
    | ReadFile(root: string, rel: string)  // the file is read asynchronously
    | ReferenceError  // an exception is thrown

  /** The branches of `compile` as written: the input branch compiles an undeclared
      variable `t`, which throws. */
  function StepAsWritten(useCached: bool, compiled: bool, input: string, root: string, path: string): (r: Step)
    ensures r == UseCached <==> useCached && compiled
    ensures r == ReferenceError <==> !(useCached && compiled) && input != []
    ensures r.ReadFile? ==> r == ReadFile(root, CollapseDots(path)) && input == []
  {
    if useCached && compiled then UseCached
    else if input != [] then ReferenceError
    else ReadFile(root, CollapseDots(path))
  }

  /** The branches of `compile` as intended: a template that has input compiles it. */
  function StepOf(useCached: bool, compiled: bool, input: string, root: string, path: string): (r: Step)
    ensures r == UseCached <==> useCached && compiled
    ensures r == CompileInput <==> !(useCached && compiled) && input != []
    ensures r.ReadFile? ==> r == ReadFile(root, CollapseDots(path)) && input == []
    ensures r != ReferenceError
  {
    if useCached && compiled then UseCached
    else if input != [] then CompileInput
    else ReadFile(root, CollapseDots(path))
  }

  /** The two differ exactly on a template that has input and is not served from the
      cache, such as a fresh template with input `x`. */
  lemma InputBranchThrows(useCached: bool, compiled: bool, input: string, root: string, path: string)
    ensures StepAsWritten(useCached, compiled, input, root, path) != StepOf(useCached, compiled, input, root, path)
      <==> !(useCached && compiled) && input != []
    ensures StepAsWritten(false, false, "x", root, path) == ReferenceError
  {
  }

  /** A template served from files. The state it shares with every template lives in
      `tpl`; `resumed` logs the `next` callbacks called. */
  class ServerTemplate {
    const tpl: Templates.Template
    var root: string
    var path: string
    var resumed: seq<nat>

    ghost predicate Valid()
      reads this, tpl
    {
      tpl.Valid()
    }

    /** `new ServerTemplate(o)`: the template settings as for any template, then `root`
        (the working directory by default) and `path` (`/index.html` by default). */
    constructor (o: map<string, Value>, cwd: string)
      requires forall k | k in o && k in {"input", "start", "stop", "send", "nest", "async", "root", "path"} :: o[k].Str? || !Truthy(o[k])
      ensures Valid() && fresh(tpl)
      ensures tpl.input == Templates.Setting(o, "input", Templates.MT)
      ensures tpl.start == Templates.Setting(o, "start", "<?") && tpl.stop == Templates.Setting(o, "stop", "?>")
      ensures tpl.send == Templates.Setting(o, "send", "=") && tpl.nest == Templates.Setting(o, "nest", "!=")
      ensures tpl.async == Templates.Setting(o, "async", "!")
      ensures tpl.handlers == map e | e in Templates.Events :: Templates.InitialHandlers(o, e)
      ensures tpl.compiled == None && tpl.output == None && tpl.fired == []
      ensures root == Templates.Setting(o, "root", cwd)
      ensures path == Templates.Setting(o, "path", DEFAULT_PATH)
      ensures resumed == []
    {
      tpl := new Templates.Template(o);
      root := Templates.Setting(o, "root", cwd);
      path := Templates.Setting(o, "path", DEFAULT_PATH);
      resumed := [];
    }

    /** `compile(use_cached, next)` as written: a cached template calls `next`; a
        template with input throws before anything changes (`InputBranchThrows`); the
        file branch is where the file system takes over, and this model stops there. */
    method Compile(useCached: bool, next: Option<nat>) returns (step: Step)
      requires Valid()
      modifies this`resumed
      ensures Valid()
      ensures step == StepAsWritten(useCached, tpl.compiled.Some?, tpl.input, root, path)
      ensures step == UseCached ==> resumed == old(resumed) + NextCall(next)
      ensures step != UseCached ==> resumed == old(resumed)
    {
      step := StepAsWritten(useCached, tpl.compiled.Some?, tpl.input, root, path);
      if step == UseCached {
        resumed := resumed + NextCall(next);
      }
    }
  }

  /** The call of `next`, when there is one. */
  function NextCall(next: Option<nat>): (r: seq<nat>)
    ensures |r| <= 1 && (r == [] <==> next.None?)
  {
    if next.Some? then [next.value] else []
  }

  /** `ServerTemplate.getTemplateByFilename(id, settings)`: a new template with empty
      input whose path is the id, defaulted to the index file of a directory. */
  method GetTemplateByFilename(id: string, settings: map<string, Value>, cwd: string) returns (st: ServerTemplate)
    requires forall k | k in settings && k in {"input", "start", "stop", "send", "nest", "async", "root", "path"} :: settings[k].Str? || !Truthy(settings[k])
    ensures fresh(st) && fresh(st.tpl) && st.Valid()
    ensures st.tpl.input == [] && st.path == DefaultedPath(id)
    ensures st.root == Templates.Setting(settings, "root", cwd)
    ensures st.tpl.start == Templates.Setting(settings, "start", "<?") && st.tpl.stop == Templates.Setting(settings, "stop", "?>")
    ensures st.tpl.send == Templates.Setting(settings, "send", "=") && st.tpl.nest == Templates.Setting(settings, "nest", "!=")
    ensures st.tpl.async == Templates.Setting(settings, "async", "!")
    ensures st.tpl.handlers == map e | e in Templates.Events :: Templates.InitialHandlers(settings, e)
    ensures st.tpl.compiled == None && st.tpl.output == None && st.tpl.fired == [] && st.resumed == []
  {
    var path := id;
    if |path| > 0 && path[|path| - 1] == '/' {
      path := path + DEFAULT_PATH;
    }
    st := new ServerTemplate(settings, cwd);
    st.tpl.input := Templates.MT;
    st.path := path;
  }
}
