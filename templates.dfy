/**
 * The report-template store: templates keyed by their unique name, with the
 * handlers that list, add, update and delete them and the start-up seeding of
 * the two default templates.
 */
module TemplateStore {
  import opened Wrappers

  /** A template as the API exchanges it. */
  datatype Template = Template(name: string, content: string)

  /** Why a store operation was refused: HTTP 400 for a duplicate name, 404
      for a missing one. */
  datatype StoreError = AlreadyExists | NotFound

  /** Adding a template under a new name. */
  function Added(m: map<string, string>, t: Template): (r: Result<map<string, string>, StoreError>)
    ensures r.Failure? <==> t.name in m
    ensures r.Failure? ==> r.error == AlreadyExists
    ensures r.Success? ==> r.value.Keys == m.Keys + {t.name} && r.value[t.name] == t.content
    ensures r.Success? ==> forall k :: k in m ==> r.value[k] == m[k]
  {
    if t.name in m then Failure(AlreadyExists) else Success(m[t.name := t.content])
  }

  /** Replacing the body of an existing template. */
  function Updated(m: map<string, string>, name: string, content: string): (r: Result<map<string, string>, StoreError>)
    ensures r.Failure? <==> name !in m
    ensures r.Failure? ==> r.error == NotFound
    ensures r.Success? ==> r.value.Keys == m.Keys && r.value[name] == content
    ensures r.Success? ==> forall k :: k in m && k != name ==> r.value[k] == m[k]
  {
    if name !in m then Failure(NotFound) else Success(m[name := content])
  }

  /** Removing an existing template. */
  function Deleted(m: map<string, string>, name: string): (r: Result<map<string, string>, StoreError>)
    ensures r.Failure? <==> name !in m
    ensures r.Failure? ==> r.error == NotFound
    ensures r.Success? ==> r.value.Keys == m.Keys - {name}
    ensures r.Success? ==> forall k :: k in r.value ==> r.value[k] == m[k]
  {
    if name !in m then Failure(NotFound) else Success(m - {name})
  }

  /** Deleting a template just added restores the store. */
  lemma DeleteUndoesAdd(m: map<string, string>, t: Template)
    requires t.name !in m
    ensures Deleted(Added(m, t).value, t.name) == Success(m)
  {
    var m' := Added(m, t).value;
    assert m' - {t.name} == m;
  }

  /** Updating a template just added is adding it with the new body. */
  lemma UpdateAfterAdd(m: map<string, string>, t: Template, content: string)
    requires t.name !in m
    ensures Updated(Added(m, t).value, t.name, content) == Added(m, Template(t.name, content))
  {
    assert Added(m, t).value[t.name := content] == m[t.name := content];
  }

  /** Updating twice keeps only the second body. */
  lemma UpdateTwice(m: map<string, string>, name: string, c1: string, c2: string)
    requires name in m
    ensures Updated(Updated(m, name, c1).value, name, c2) == Updated(m, name, c2)
  {
    assert m[name := c1][name := c2] == m[name := c2];
  }

  /** Lines of the chest X-ray default template. */
  const ChestXrayLines: seq<string> := [
    "# Chest X-ray Report Template", "",
    "## Clinical Information", "[clinical_information]", "",
    "## Technique", "[technique]", "",
    "## Findings", "[findings]", "",
    "## Impression", "[impression]"
  ]

  /** Lines of the abdominal CT default template. */
  const AbdominalCtLines: seq<string> := [
    "# Abdominal CT Report Template", "",
    "## Clinical Information", "[clinical_information]", "",
    "## Technique", "[technique]", "",
    "## Findings",
    "### Liver", "[liver_findings]", "",
    "### Gallbladder and Biliary System", "[gallbladder_findings]", "",
    "### Pancreas", "[pancreas_findings]", "",
    "### Spleen", "[spleen_findings]", "",
    "### Adrenal Glands", "[adrenal_findings]", "",
    "### Kidneys and Ureters", "[kidney_findings]", "",
    "### GI Tract", "[gi_findings]", "",
    "### Vascular", "[vascular_findings]", "",
    "### Other Findings", "[other_findings]", "",
    "## Impression", "[impression]"
  ]

  /** The source indentation of the template bodies. */
  const Indent := "    "

  /** Each line indented and ended by a line break. */
  function IndentedLines(lines: seq<string>): string {
    if lines == [] then "" else Indent + lines[0] + "\n" + IndentedLines(lines[1..])
  }

  /** A triple-quoted template body: a line break, the indented lines, and
      the indentation before the closing quotes. */
  function Body(lines: seq<string>): string {
    "\n" + IndentedLines(lines) + Indent
  }

  const ChestXrayName := "chest_xray"
  const AbdominalCtName := "abdominal_ct"
  const ChestXray := Template(ChestXrayName, Body(ChestXrayLines))
  const AbdominalCt := Template(AbdominalCtName, Body(AbdominalCtLines))

  /** The default templates, in the order they are seeded. */
  const DefaultTemplates: seq<Template> := [ChestXray, AbdominalCt]

  /** The names of a list of templates. */
  function Names(ts: seq<Template>): (r: set<string>)
    ensures forall i :: 0 <= i < |ts| ==> ts[i].name in r
    ensures forall n :: n in r ==> exists i :: 0 <= i < |ts| && ts[i].name == n
  {
    set i | 0 <= i < |ts| :: ts[i].name
  }

  predicate DistinctNames(ts: seq<Template>) {
    forall i, j :: 0 <= i < j < |ts| ==> ts[i].name != ts[j].name
  }

  /** The two defaults have different names. */
  lemma DefaultNamesDistinct()
    ensures DistinctNames(DefaultTemplates)
  {
    NamesDiffer(ChestXrayName, AbdominalCtName);
    PairDistinct(ChestXray, AbdominalCt);
  }

  lemma PairDistinct(a: Template, b: Template)
    requires a.name != b.name
    ensures DistinctNames([a, b])
  {
  }

  lemma NamesDiffer(a: string, b: string)
    requires a == "chest_xray" && b == "abdominal_ct"
    ensures a != b
  {
    assert a[0] != b[0];
  }

  /** Seeding: each default is inserted, in order, unless its name is already
      stored. */
  function Seeded(m: map<string, string>, defaults: seq<Template>): (r: map<string, string>)
    ensures m.Keys <= r.Keys
    ensures forall k :: k in m ==> r[k] == m[k]
    decreases |defaults|
  {
    if defaults == [] then m
    else
      var s := Seeded(m, defaults[..|defaults| - 1]);
      var t := defaults[|defaults| - 1];
      if t.name in s then s else s[t.name := t.content]
  }

  /** Seeding adds exactly the default names and never overwrites a stored
      template. */
  lemma {:induction false} SeededKeeps(m: map<string, string>, defaults: seq<Template>)
    ensures Seeded(m, defaults).Keys == m.Keys + Names(defaults)
    ensures forall k :: k in m ==> Seeded(m, defaults)[k] == m[k]
    decreases |defaults|
  {
    if defaults != [] {
      var init := defaults[..|defaults| - 1];
      SeededKeeps(m, init);
      assert Names(defaults) == Names(init) + {defaults[|defaults| - 1].name} by {
        forall n | n in Names(defaults) ensures n in Names(init) + {defaults[|defaults| - 1].name} {
          var i :| 0 <= i < |defaults| && defaults[i].name == n;
          if i < |defaults| - 1 { assert init[i] == defaults[i]; }
        }
        forall n | n in Names(init) ensures n in Names(defaults) {
          var i :| 0 <= i < |init| && init[i].name == n;
          assert defaults[i] == init[i];
        }
      }
    }
  }

  /** With distinct names, a default whose name was not stored gets its
      body: the result is the same as checking each name against the store as
      it was before seeding. */
  lemma {:induction false} SeededAdds(m: map<string, string>, defaults: seq<Template>, i: nat)
    requires DistinctNames(defaults)
    requires i < |defaults| && defaults[i].name !in m
    ensures defaults[i].name in Seeded(m, defaults)
    ensures Seeded(m, defaults)[defaults[i].name] == defaults[i].content
    decreases |defaults|
  {
    var init := defaults[..|defaults| - 1];
    var last := defaults[|defaults| - 1];
    SeededKeeps(m, init);
    DistinctInit(defaults);
    if i < |defaults| - 1 {
      assert init[i] == defaults[i];
      SeededAdds(m, init, i);
    }
  }

  /** Dropping the last of distinct templates leaves distinct templates, none
      named as the last one. */
  lemma DistinctInit(defaults: seq<Template>)
    requires DistinctNames(defaults) && defaults != []
    ensures DistinctNames(defaults[..|defaults| - 1])
    ensures defaults[|defaults| - 1].name !in Names(defaults[..|defaults| - 1])
    ensures forall j :: 0 <= j < |defaults| - 1 ==> defaults[j].name != defaults[|defaults| - 1].name
  {
    var init := defaults[..|defaults| - 1];
    forall n | n in Names(init) ensures n != defaults[|defaults| - 1].name {
      var j :| 0 <= j < |init| && init[j].name == n;
      assert defaults[j] == init[j];
    }
  }

  /** Seeding a second time changes nothing. */
  lemma {:induction false} SeededIdempotent(m: map<string, string>, defaults: seq<Template>)
    ensures Seeded(Seeded(m, defaults), defaults) == Seeded(m, defaults)
  {
    var s := Seeded(m, defaults);
    SeededKeeps(m, defaults);
    SeededNoop(s, defaults);
  }

  /** Seeding a store that already holds every default name changes nothing. */
  lemma {:induction false} SeededNoop(m: map<string, string>, defaults: seq<Template>)
    requires Names(defaults) <= m.Keys
    ensures Seeded(m, defaults) == m
    decreases |defaults|
  {
    if defaults != [] {
      var init := defaults[..|defaults| - 1];
      assert Names(init) <= Names(defaults) by {
        forall n | n in Names(init) ensures n in Names(defaults) {
          var j :| 0 <= j < |init| && init[j].name == n;
          assert defaults[j] == init[j];
        }
      }
      SeededNoop(m, init);
    }
  }

  /** The template table. */
  class Store {
    var templates: map<string, string>

    /** An empty table. */
    constructor()
      ensures templates == map[]
    {
      templates := map[];
    }

    /** `GET /templates`: every stored template once, in no particular order. */
    method GetTemplates() returns (r: seq<Template>)
      ensures |r| == |templates|
      ensures forall i :: 0 <= i < |r| ==> r[i].name in templates && templates[r[i].name] == r[i].content
      ensures forall n :: n in templates ==> exists i :: 0 <= i < |r| && r[i].name == n
      ensures DistinctNames(r)
    {
      r := [];
      var left := templates.Keys;
      while left != {}
        invariant left <= templates.Keys
        invariant |r| + |left| == |templates|
        invariant forall i :: 0 <= i < |r| ==> r[i].name in templates - left && templates[r[i].name] == r[i].content
        invariant forall n :: n in templates && n !in left ==> exists i :: 0 <= i < |r| && r[i].name == n
        invariant DistinctNames(r)
        decreases |left|
      {
        var n :| n in left;
        ghost var r0 := r;
        r := r + [Template(n, templates[n])];
        left := left - {n};
        forall k | k in templates && k !in left ensures exists i :: 0 <= i < |r| && r[i].name == k {
          if k == n {
            assert r[|r| - 1].name == k;
          } else {
            var i :| 0 <= i < |r0| && r0[i].name == k;
            assert r[i] == r0[i];
          }
        }
      }
    }

    /** `POST /templates`: a new name is stored with its body; an existing
        name is refused and the table is unchanged. */
    method AddTemplate(t: Template) returns (r: Result<Template, StoreError>)
      modifies this
      ensures Added(old(templates), t).Success? ==> r == Success(t) && templates == Added(old(templates), t).value
      ensures Added(old(templates), t).Failure? ==> r == Failure(AlreadyExists) && templates == old(templates)
    {
      if t.name in templates {
        return Failure(AlreadyExists);
      }
      templates := templates[t.name := t.content];
      r := Success(t);
    }

    /** `PUT /templates/{name}`: only the body of the named template changes;
        the name inside the request body is ignored. */
    method UpdateTemplate(name: string, t: Template) returns (r: Result<string, StoreError>)
      modifies this
      ensures Updated(old(templates), name, t.content).Success? ==>
        r == Success("Template '" + name + "' updated successfully") &&
        templates == Updated(old(templates), name, t.content).value
      ensures Updated(old(templates), name, t.content).Failure? ==>
        r == Failure(NotFound) && templates == old(templates)
    {
      if name !in templates {
        return Failure(NotFound);
      }
      templates := templates[name := t.content];
      r := Success("Template '" + name + "' updated successfully");
    }

    /** `DELETE /templates/{name}`: only the named template is removed. */
    method DeleteTemplate(name: string) returns (r: Result<string, StoreError>)
      modifies this
      ensures Deleted(old(templates), name).Success? ==>
        r == Success("Template '" + name + "' deleted successfully") &&
        templates == Deleted(old(templates), name).value
      ensures Deleted(old(templates), name).Failure? ==>
        r == Failure(NotFound) && templates == old(templates)
    {
      if name !in templates {
        return Failure(NotFound);
      }
      templates := templates - {name};
      r := Success("Template '" + name + "' deleted successfully");
    }

    /** Start-up seeding: each default whose name is not stored is added. */
    method InitTemplates()
      modifies this
      ensures templates == Seeded(old(templates), DefaultTemplates)
    {
      Seed(DefaultTemplates);
    }

    /** The seeding loop over a list of templates. */
    method Seed(defaults: seq<Template>)
      modifies this
      ensures templates == Seeded(old(templates), defaults)
    {
      for i := 0 to |defaults|
        invariant templates == Seeded(old(templates), defaults[..i])
      {
        assert defaults[..i + 1][..i] == defaults[..i];
        var t := defaults[i];
        if t.name !in templates {
          templates := templates[t.name := t.content];
        }
      }
      assert defaults[..|defaults|] == defaults;
    }
  }
}
