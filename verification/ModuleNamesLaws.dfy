/**
 The two normalisers of import names (module_resolution/module-resolution.h, qnc/qnc.js) as equations between texts:
 what a bare name, "./" and "../" come to in both, where the C code stops, and what stripping a directory means.
 */
module ModuleNamesLaws {
  import opened ModuleNames

  /** A name that does not begin with a dot is left alone by both. */
  lemma BareNames(base: string, name: string)
    requires name == "" || name[0] != '.'
    ensures JsName(base, name) == name && CName(base, name) == name
  {
  }

  /** What stands before the last slash of a text is its directory. */
  lemma DirIs(d: string, f: string)
    requires '/' !in f
    ensures DirOf(d + "/" + f) == d && LastPart(d + "/" + f) == f
    ensures DirOf(f) == "" && LastPart(f) == f
  {
    LastSlashIs(d + "/" + f, |d|);
    LastSlashIs(f, -1);
  }

  /** A leading "./" puts the rest behind the directory of the importing file, unless it climbs on. */
  lemma HereMeans(d: string, f: string, rest: string)
    requires '/' !in f && !("./" <= rest) && !("../" <= rest)
    ensures d != "" ==> JsName(d + "/" + f, "./" + rest) == CName(d + "/" + f, "./" + rest) == d + "/" + rest
    ensures JsName(f, "./" + rest) == CName(f, "./" + rest) == rest
  {
    hide DirOf, LastPart, JsSteps, CSteps;
    DirIs(d, f);
    StepsHere(d, rest);
    StepsHere("", rest);
    StepsEnd(d, rest);
    StepsEnd("", rest);
  }

  lemma StepsHere(dir: string, rest: string)
    ensures JsSteps(dir, "./" + rest) == JsSteps(dir, rest) && CSteps(dir, "./" + rest) == CSteps(dir, rest)
  {
    assert ("./" + rest)[..2] == "./" && ("./" + rest)[2..] == rest;
  }

  lemma StepsEnd(dir: string, rest: string)
    requires !("./" <= rest) && !("../" <= rest)
    ensures JsSteps(dir, rest) == (dir, rest) && CSteps(dir, rest) == (dir, rest)
  {
  }

  /** Further leading "./" change nothing. */
  lemma HereAgain(base: string, rest: string)
    ensures JsName(base, "././" + rest) == JsName(base, "./" + rest)
    ensures CName(base, "././" + rest) == CName(base, "./" + rest)
  {
    assert "././" + rest == "./" + ("./" + rest);
    StepsHere(DirOf(base), "./" + rest);
  }

  lemma StepsUp(dir: string, rest: string)
    ensures JsSteps(dir, "../" + rest) == JsSteps(DirOf(dir), rest)
    ensures CSteps(dir, "../" + rest)
         == if dir == "" || LastPart(dir) == "." || LastPart(dir) == ".." then (dir, "../" + rest)
            else CSteps(DirOf(dir), rest)
  {
    hide DirOf, LastPart;
    var up := "../" + rest;
    assert up[..3] == "../" && up[3..] == rest && up[1] == '.';
    assert !Here(up) && Up(up);
  }

  /** A leading "../" goes on from a file one directory up; the C code does so unless that directory is "." or "..". */
  lemma UpMeans(d: string, part: string, f: string, g: string, rest: string)
    requires '/' !in part && '/' !in f && '/' !in g
    ensures JsName(d + "/" + part + "/" + f, "../" + rest) == JsName(d + "/" + g, "./" + rest)
    ensures JsName(part + "/" + f, "../" + rest) == JsName(g, "./" + rest)
    ensures part != "." && part != ".." ==>
      && CName(d + "/" + part + "/" + f, "../" + rest) == CName(d + "/" + g, "./" + rest)
      && (part != "" ==> CName(part + "/" + f, "../" + rest) == CName(g, "./" + rest))
  {
    hide DirOf, LastPart, JsSteps, CSteps, Appended;
    DirIs(d + "/" + part, f);
    DirIs(d, part);
    DirIs(d, g);
    DirIs(part, f);
    StepsUp(d + "/" + part, rest);
    StepsUp(part, rest);
    StepsHere(d, rest);
    StepsHere("", rest);
  }

  /** Where the C code does not go up it keeps the "../", while the JavaScript code goes up or drops it. */
  lemma UpKept(d: string, part: string, f: string, rest: string)
    requires '/' !in f && (part == "." || part == "..")
    ensures CName(d + "/" + part + "/" + f, "../" + rest) == d + "/" + part + "/../" + rest
    ensures CName(part + "/" + f, "../" + rest) == part + "/../" + rest
    ensures CName(f, "../" + rest) == "../" + rest
    ensures JsName(f, "../" + rest) == JsName(f, "./" + rest)
  {
    hide DirOf, LastPart, JsSteps, CSteps;
    DirIs(d + "/" + part, f);
    DirIs(d, part);
    DirIs(part, f);
    DirIs(d, f);
    StepsUp(d + "/" + part, rest);
    StepsUp(part, rest);
    StepsUp("", rest);
    StepsHere("", rest);
    DirOfNothing();
    assert d + "/" + part + "/" + ("../" + rest) == d + "/" + part + "/../" + rest;
    assert part + "/" + ("../" + rest) == part + "/../" + rest;
  }

  lemma DirOfNothing()
    ensures DirOf("") == ""
  {
  }

  /** Stripping a directory takes it and the slash behind it off the front of a path, and leaves other paths alone. */
  lemma StrippedIs(cwd: string, path: string, rest: string)
    ensures Stripped(cwd, cwd + "/" + rest) == rest
    ensures (forall r: string :: path != cwd + "/" + r) ==> Stripped(cwd, path) == path
  {
    var full := cwd + "/" + rest;
    assert full[|cwd| + 1..] == rest && full[..|cwd| + 1] == cwd + "/";
    if Stripped(cwd, path) != path {
      assert path == cwd + "/" + path[|cwd| + 1..];
    }
  }
}
