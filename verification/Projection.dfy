/** Generating the contract projections and checking them for drift (scripts/export_agent_contract.py, lines 802-847
    and 973-1055). The file system is an object; what goes into each file is a function of the skills. */
module Projection {
  import opened Text
  import opened Sorting

  datatype Skill = Skill(id: string, isError: bool, live: bool, surfaces: set<string>, sideEffects: bool,
                         contract: string)

  /** `McpTool(id)` is `<id>.json` in the MCP tools directory, the directory whose files the generator owns. */
  datatype Path = OpenApi | McpTool(id: string) | A2aCard | RuntimeBindings | CliCommands | WebuiPages | Doc
                | Elsewhere(name: string)

  type Files = map<Path, string>

  datatype Builders = Builders(openApi: seq<Skill> -> string, mcpTool: Skill -> string, card: seq<Skill> -> string,
                               bindings: seq<Skill> -> string, cli: seq<Skill> -> string,
                               webui: seq<Skill> -> string, doc: seq<Skill> -> string)

  predicate SkillLe(a: Skill, b: Skill) {
    (!a.sideEffects && b.sideEffects) || (a.sideEffects == b.sideEffects && StringLe(a.id, b.id))
  }

  function SortSkills(skills: seq<Skill>): seq<Skill> {
    Sorted(SkillLe, skills)
  }

  function Where(skills: seq<Skill>, keep: Skill -> bool): seq<Skill> {
    if skills == [] then [] else (if keep(skills[0]) then [skills[0]] else []) + Where(skills[1..], keep)
  }

  function Valid(skills: seq<Skill>): seq<Skill> {
    Where(skills, (s: Skill) => !s.isError)
  }

  function OnSurface(skills: seq<Skill>, surface: string): seq<Skill> {
    Where(skills, (s: Skill) => surface in s.surfaces && s.live)
  }

  /** A descriptor for each tool; a later tool with the same id replaces an earlier one. */
  function PutTools(files: Files, tools: seq<Skill>, b: Builders): Files {
    if tools == [] then files
    else PutTools(files, tools[..|tools| - 1], b)[McpTool(tools[|tools| - 1].id) := b.mcpTool(tools[|tools| - 1])]
  }

  function ToolPaths(tools: seq<Skill>): set<Path> {
    set i | 0 <= i < |tools| :: McpTool(tools[i].id)
  }

  function Tools(skills: seq<Skill>): seq<Skill> {
    SortSkills(OnSurface(Valid(skills), "mcp"))
  }

  /** Every projection file with the content it should have. */
  function Expected(skills: seq<Skill>, b: Builders): Files {
    var valid := Valid(skills);
    var a2a := OnSurface(valid, "a2a");
    PutTools(map[OpenApi := b.openApi(valid)], Tools(skills), b)
      [A2aCard := b.card(a2a)][RuntimeBindings := b.bindings(a2a)][CliCommands := b.cli(valid)]
      [WebuiPages := b.webui(valid)]
  }

  method ExpectedProjectionFiles(skills: seq<Skill>, b: Builders) returns (files: Files, mcpPaths: set<Path>)
    ensures files == Expected(skills, b) && mcpPaths == ToolPaths(Tools(skills))
  {
    var valid := Valid(skills);
    files, mcpPaths := map[OpenApi := b.openApi(valid)], {};
    ghost var first := files;
    var tools := Tools(skills);
    for k := 0 to |tools|
      invariant files == PutTools(first, tools[..k], b)
      invariant mcpPaths == ToolPaths(tools[..k])
    {
      assert tools[..k + 1][..k] == tools[..k] && tools[..k + 1][k] == tools[k];
      var path := McpTool(tools[k].id);
      mcpPaths := mcpPaths + {path};
      files := files[path := b.mcpTool(tools[k])];
    }
    assert tools[..|tools|] == tools;
    var a2a := OnSurface(valid, "a2a");
    files := files[A2aCard := b.card(a2a)];
    files := files[RuntimeBindings := b.bindings(a2a)];
    files := files[CliCommands := b.cli(valid)];
    files := files[WebuiPages := b.webui(valid)];
  }

  lemma {:induction false} PutToolsKeys(files: Files, tools: seq<Skill>, b: Builders)
    ensures PutTools(files, tools, b).Keys == files.Keys + ToolPaths(tools)
  {
    if tools != [] {
      var n := |tools| - 1;
      PutToolsKeys(files, tools[..n], b);
      assert tools[..n + 1] == tools;
    }
  }

  /** The expected descriptors are exactly the expected paths in the tools directory; the document is no projection. */
  lemma ExpectedKeys(skills: seq<Skill>, b: Builders)
    ensures var files := Expected(skills, b);
      (forall p :: p in files && p.McpTool? <==> p in ToolPaths(Tools(skills)))
      && files.Keys == {OpenApi, A2aCard, RuntimeBindings, CliCommands, WebuiPages} + ToolPaths(Tools(skills))
      && Doc !in files
  {
    PutToolsKeys(map[OpenApi := b.openApi(Valid(skills))], Tools(skills), b);
  }

  // ----- the disk

  datatype Drift = Missing(path: Path) | Differs(path: Path) | Unexpected(path: Path)

  /** A descriptor that no skill asks for. */
  predicate IsExtra(p: Path, mcpPaths: set<Path>) {
    p.McpTool? && p !in mcpPaths
  }

  /** What a generate run makes of the files. */
  function Generated(files: Files, expected: Files, mcpPaths: set<Path>, doc: string): Files {
    (map p | p in files + expected && !IsExtra(p, mcpPaths) :: (files + expected)[p])[Doc := doc]
  }

  /** The drift of one path, given what it should hold. */
  function DriftOf(files: Files, p: Path, content: string): set<Drift> {
    if p !in files then {Missing(p)} else if files[p] != content then {Differs(p)} else {}
  }

  function ProjectionDrift(files: Files, expected: Files, mcpPaths: set<Path>): set<Drift> {
    (set p, d | p in expected && d in DriftOf(files, p, expected[p]) :: d)
    + (set p | p in files && IsExtra(p, mcpPaths) :: Unexpected(p))
  }

  class Disk {
    var files: Files

    constructor (files: Files)
      ensures this.files == files
    {
      this.files := files;
    }

    method WriteTextIfChanged(path: Path, content: string)
      modifies this
      ensures files == old(files)[path := content]
    {
      if path in files && files[path] == content {
        assert files == files[path := content];
        return;
      }
      files := files[path := content];
    }

    method RemoveExtraMcpFiles(mcpPaths: set<Path>)
      modifies this
      ensures files == map p | p in old(files) && !IsExtra(p, mcpPaths) :: old(files)[p]
    {
      var rest := set p | p in files && p.McpTool?;
      while rest != {}
        invariant forall p :: p in rest ==> p in old(files) && p.McpTool?
        invariant files.Keys <= old(files).Keys
        invariant forall p :: p in files ==> files[p] == old(files)[p]
        invariant forall p :: p in old(files) ==> (p in files <==> !IsExtra(p, mcpPaths) || p in rest)
        decreases rest
      {
        var path :| path in rest;
        if path !in mcpPaths {
          files := files - {path};
        }
        rest := rest - {path};
      }
    }

    method CheckProjectionDrift(expected: Files, mcpPaths: set<Path>) returns (errors: set<Drift>)
      ensures errors == ProjectionDrift(files, expected, mcpPaths)
    {
      errors := {};
      var rest := expected.Keys;
      while rest != {}
        invariant rest <= expected.Keys
        invariant errors == set p, d | p in expected.Keys - rest && d in DriftOf(files, p, expected[p]) :: d
        decreases rest
      {
        var path :| path in rest;
        ghost var before := errors;
        if path !in files {
          errors := errors + {Missing(path)};
        } else if files[path] != expected[path] {
          errors := errors + {Differs(path)};
        }
        assert errors == before + DriftOf(files, path, expected[path]);
        rest := rest - {path};
      }
      ghost var drifted := errors;
      var tools := set p | p in files && p.McpTool?;
      rest := tools;
      while rest != {}
        invariant rest <= tools
        invariant errors == drifted + set p | p in tools - rest && p !in mcpPaths :: Unexpected(p)
        decreases rest
      {
        var path :| path in rest;
        if path !in mcpPaths {
          errors := errors + {Unexpected(path)};
        }
        rest := rest - {path};
      }
    }

    /** The generating part of `main`. */
    method Generate(skills: seq<Skill>, b: Builders)
      modifies this
      ensures files == Generated(old(files), Expected(skills, b), ToolPaths(Tools(skills)), b.doc(skills))
    {
      var expected, mcpPaths := ExpectedProjectionFiles(skills, b);
      WriteAll(expected);
      RemoveExtraMcpFiles(mcpPaths);
      files := files[Doc := b.doc(skills)];
    }

    /** The loop that writes the projections. */
    method WriteAll(expected: Files)
      modifies this
      ensures files == old(files) + expected
    {
      ghost var start := files;
      var rest := expected.Keys;
      while rest != {}
        invariant rest <= expected.Keys
        invariant files.Keys == start.Keys + (expected.Keys - rest)
        invariant forall p :: p in files ==>
          files[p] == if p in expected && p !in rest then expected[p] else start[p]
        decreases rest
      {
        var path :| path in rest;
        WriteTextIfChanged(path, expected[path]);
        rest := rest - {path};
      }
    }

    /** `main`: 2 for contradictory flags, 1 for a check that found drift, otherwise 0. */
    method Run(check: bool, update: bool, skills: seq<Skill>, b: Builders) returns (code: int)
      modifies this
      ensures code == if check && update then 2 else if check && !Clean(old(files), skills, b) then 1 else 0
      ensures files == if check then old(files)
                       else Generated(old(files), Expected(skills, b), ToolPaths(Tools(skills)), b.doc(skills))
    {
      if check && update {
        return 2;
      }
      if check {
        var expected, mcpPaths := ExpectedProjectionFiles(skills, b);
        var errors := CheckProjectionDrift(expected, mcpPaths);
        var doc := b.doc(skills);
        if Doc !in files {
          errors := errors + {Missing(Doc)};
        } else if files[Doc] != doc {
          errors := errors + {Differs(Doc)};
        }
        return if errors != {} then 1 else 0;
      }
      Generate(skills, b);
      code := 0;
    }
  }

  /** The check reports nothing. */
  predicate Clean(files: Files, skills: seq<Skill>, b: Builders) {
    ProjectionDrift(files, Expected(skills, b), ToolPaths(Tools(skills))) + DriftOf(files, Doc, b.doc(skills)) == {}
  }

  /** The check reports nothing exactly when every projection and the document hold what they should and the tools
      directory holds nothing else. */
  lemma CleanIff(files: Files, skills: seq<Skill>, b: Builders)
    ensures Clean(files, skills, b) <==>
      (forall p :: p in Expected(skills, b) ==> p in files && files[p] == Expected(skills, b)[p])
      && (forall p :: p in files && p.McpTool? ==> p in Expected(skills, b))
      && Doc in files && files[Doc] == b.doc(skills)
  {
    var expected, mcpPaths := Expected(skills, b), ToolPaths(Tools(skills));
    ExpectedKeys(skills, b);
    var drift := ProjectionDrift(files, expected, mcpPaths);
    assert forall p, d :: p in expected && d in DriftOf(files, p, expected[p]) ==> d in drift;
    assert forall p :: p in files && IsExtra(p, mcpPaths) ==> Unexpected(p) in drift;
    forall p | p in expected
      ensures DriftOf(files, p, expected[p]) == {} <==> p in files && files[p] == expected[p]
    {
      assert p !in files ==> Missing(p) in DriftOf(files, p, expected[p]);
      assert p in files && files[p] != expected[p] ==> Differs(p) in DriftOf(files, p, expected[p]);
    }
    if drift == {} {
      assert forall p :: p in expected ==> DriftOf(files, p, expected[p]) == {};
    }
  }

  /** After a generate run the check is clean. */
  lemma GenerateMakesClean(files: Files, skills: seq<Skill>, b: Builders)
    ensures Clean(Generated(files, Expected(skills, b), ToolPaths(Tools(skills)), b.doc(skills)), skills, b)
  {
    ExpectedKeys(skills, b);
    CleanIff(Generated(files, Expected(skills, b), ToolPaths(Tools(skills)), b.doc(skills)), skills, b);
  }

  /** The check is clean exactly when a generate run would leave every file as it is. */
  lemma CleanIffGenerateChangesNothing(files: Files, skills: seq<Skill>, b: Builders)
    ensures Clean(files, skills, b) <==>
      Generated(files, Expected(skills, b), ToolPaths(Tools(skills)), b.doc(skills)) == files
  {
    var expected, mcpPaths := Expected(skills, b), ToolPaths(Tools(skills));
    ExpectedKeys(skills, b);
    CleanIff(files, skills, b);
    if Generated(files, expected, mcpPaths, b.doc(skills)) == files {
      GenerateMakesClean(files, skills, b);
    } else if Clean(files, skills, b) {
      var again := Generated(files, expected, mcpPaths, b.doc(skills));
      assert again.Keys == files.Keys;
      assert forall p :: p in files ==> again[p] == files[p];
    }
  }

  /** Files outside the projections, the tools directory and the document are never touched. */
  lemma GenerateTouchesNothingElse(files: Files, skills: seq<Skill>, b: Builders, p: Path)
    requires p.Elsewhere?
    ensures var after := Generated(files, Expected(skills, b), ToolPaths(Tools(skills)), b.doc(skills));
      (p in after <==> p in files) && (p in files ==> after[p] == files[p])
  {
    ExpectedKeys(skills, b);
  }

  // ----- what the files hold, and which drift is reported

  ghost function Kept(skills: seq<Skill>, keep: Skill -> bool): nat -> bool {
    (i: nat) => i < |skills| && keep(skills[i])
  }

  ghost function SameSkill(skills: seq<Skill>): (nat, Skill) -> bool {
    (i: nat, s: Skill) => i < |skills| && s == skills[i]
  }

  lemma WhereFirst(skills: seq<Skill>, keep: Skill -> bool)
    requires skills != []
    ensures Where(skills, keep) == (if keep(skills[0]) then [skills[0]] else []) + Where(skills[1..], keep)
  {
  }

  lemma {:induction false} WhereSnoc(skills: seq<Skill>, s: Skill, keep: Skill -> bool)
    ensures Where(skills + [s], keep) == Where(skills, keep) + if keep(s) then [s] else []
  {
    var all := skills + [s];
    if skills == [] {
      assert all == [s] && all[1..] == [] && Where(all[1..], keep) == [];
    } else {
      assert all[0] == skills[0] && all[1..] == skills[1..] + [s];
      WhereSnoc(skills[1..], s, keep);
      WhereFirst(skills, keep);
      WhereFirst(all, keep);
    }
  }

  lemma {:induction false} WhereUpTo(skills: seq<Skill>, k: nat, keep: Skill -> bool)
    requires k <= |skills|
    ensures Picks(k, Kept(skills, keep), SameSkill(skills), Where(skills[..k], keep))
  {
    if k == 0 {
      PicksNone(Kept(skills, keep), SameSkill(skills));
    } else {
      WhereUpTo(skills, k - 1, keep);
      assert skills[..k] == skills[..k - 1] + [skills[k - 1]];
      WhereSnoc(skills[..k - 1], skills[k - 1], keep);
      PicksMore(k - 1, Kept(skills, keep), SameSkill(skills), Where(skills[..k - 1], keep),
                if keep(skills[k - 1]) then [skills[k - 1]] else []);
    }
  }

  ghost function Readable(skills: seq<Skill>): nat -> bool {
    (i: nat) => i < |skills| && !skills[i].isError
  }

  ghost function Live(skills: seq<Skill>, surface: string): nat -> bool {
    (i: nat) => i < |skills| && skills[i].live && surface in skills[i].surfaces
  }

  lemma PicksAlike<U>(n: nat, keep: nat -> bool, keep': nat -> bool, fits: (nat, U) -> bool, ys: seq<U>)
    requires Picks(n, keep, fits, ys) && forall i: nat :: keep(i) <==> keep'(i)
    ensures Picks(n, keep', fits, ys)
  {
    var at :| PicksAt(n, keep, fits, ys, at);
    assert PicksAt(n, keep', fits, ys, at);
  }

  /** The valid skills are those without an error, the live ones of a surface those that are live and on it, each in the
      order of the list. */
  lemma ListsAre(skills: seq<Skill>, surface: string)
    ensures Picks(|skills|, Readable(skills), SameSkill(skills), Valid(skills))
    ensures Picks(|skills|, Live(skills, surface), SameSkill(skills), OnSurface(skills, surface))
  {
    var valid, live := (s: Skill) => !s.isError, (s: Skill) => surface in s.surfaces && s.live;
    assert skills[..|skills|] == skills;
    WhereUpTo(skills, |skills|, valid);
    WhereUpTo(skills, |skills|, live);
    PicksAlike(|skills|, Kept(skills, valid), Readable(skills), SameSkill(skills), Where(skills, valid));
    PicksAlike(|skills|, Kept(skills, live), Live(skills, surface), SameSkill(skills), Where(skills, live));
    assert Valid(skills) == Where(skills, valid) && OnSurface(skills, surface) == Where(skills, live);
  }

  /** Tools without side effects come first, and by their ids among themselves. */
  lemma ToolsAre(skills: seq<Skill>)
    ensures var tools := Tools(skills);
      multiset(tools) == multiset(OnSurface(Valid(skills), "mcp"))
      && forall i, j :: 0 <= i < j < |tools| ==>
           (tools[i].sideEffects ==> tools[j].sideEffects)
           && (tools[i].sideEffects == tools[j].sideEffects ==> Precedes(tools[i].id, tools[j].id))
  {
    var tools := Tools(skills);
    SkillOrder();
    SortedSorts(SkillLe, OnSurface(Valid(skills), "mcp"));
    forall i, j | 0 <= i < j < |tools|
      ensures (tools[i].sideEffects ==> tools[j].sideEffects)
              && (tools[i].sideEffects == tools[j].sideEffects ==> Precedes(tools[i].id, tools[j].id))
    {
      assert SkillLe(tools[i], tools[j]);
      StringLeIff(tools[i].id, tools[j].id);
    }
  }

  lemma SkillOrder()
    ensures Preorder(SkillLe)
  {
    forall a: Skill, b: Skill ensures SkillLe(a, b) || SkillLe(b, a) { StringLeTotal(a.id, b.id); }
    forall a: Skill, b: Skill, c: Skill | SkillLe(a, b) && SkillLe(b, c) ensures SkillLe(a, c) {
      if StringLe(a.id, b.id) && StringLe(b.id, c.id) { StringLeTransitive(a.id, b.id, c.id); }
    }
  }

  /** The tool is the last one with its id. */
  predicate IsLastTool(tools: seq<Skill>, i: nat)
    requires i < |tools|
  {
    forall j :: i < j < |tools| ==> tools[j].id != tools[i].id
  }

  lemma {:induction false} PutToolsIs(files: Files, tools: seq<Skill>, b: Builders)
    ensures forall p: Path :: !p.McpTool? ==>
      (p in PutTools(files, tools, b) <==> p in files) && (p in files ==> PutTools(files, tools, b)[p] == files[p])
    ensures forall i: nat :: i < |tools| && IsLastTool(tools, i) ==>
      McpTool(tools[i].id) in PutTools(files, tools, b)
      && PutTools(files, tools, b)[McpTool(tools[i].id)] == b.mcpTool(tools[i])
  {
    if tools != [] {
      var n := |tools| - 1;
      PutToolsIs(files, tools[..n], b);
      forall i: nat | i < n && IsLastTool(tools, i) ensures IsLastTool(tools[..n], i) && tools[i].id != tools[n].id {
        assert forall j :: i < j < n ==> tools[..n][j] == tools[j];
      }
    }
  }

  /** The projections: the API and the command line of all valid skills, the card and the bindings of the live ones on
      the agent surface, the pages of all valid ones, and for each tool the descriptor of the last one with its id. */
  lemma ExpectedIs(skills: seq<Skill>, b: Builders)
    ensures var files, valid, tools := Expected(skills, b), Valid(skills), Tools(skills);
      var a2a := OnSurface(valid, "a2a");
      OpenApi in files && files[OpenApi] == b.openApi(valid)
      && A2aCard in files && files[A2aCard] == b.card(a2a)
      && RuntimeBindings in files && files[RuntimeBindings] == b.bindings(a2a)
      && CliCommands in files && files[CliCommands] == b.cli(valid)
      && WebuiPages in files && files[WebuiPages] == b.webui(valid)
      && forall i: nat :: i < |tools| && IsLastTool(tools, i) ==>
           McpTool(tools[i].id) in files && files[McpTool(tools[i].id)] == b.mcpTool(tools[i])
  {
    PutToolsIs(map[OpenApi := b.openApi(Valid(skills))], Tools(skills), b);
  }

  /** The drift reported: expected files that are missing or hold something else, and descriptors nobody asks for. */
  lemma DriftIff(files: Files, expected: Files, mcpPaths: set<Path>, d: Drift)
    ensures d in ProjectionDrift(files, expected, mcpPaths) <==>
      match d
      case Missing(p) => p in expected && p !in files
      case Differs(p) => p in expected && p in files && files[p] != expected[p]
      case Unexpected(p) => p in files && p.McpTool? && p !in mcpPaths
  {
    match d
    case Missing(p) => assert p in expected && p !in files ==> d in DriftOf(files, p, expected[p]);
    case Differs(p) =>
      assert p in expected && p in files && files[p] != expected[p] ==> d in DriftOf(files, p, expected[p]);
    case Unexpected(p) =>
  }
}
