/**
 * The process-wide tool catalog of registry.go: the tools by id, and the tools
 * of each space in registration order.  Each operation is one atomic step; the
 * read/write lock that makes it so is not modelled.  The specification of the
 * catalog is the sequence of registrations made so far, and every query is
 * stated as a function of that sequence.
 */
module Registry {
  import opened Wrappers

  /** What the catalog uses of a `FormTool`: its id, its metadata and its space. */
  datatype Tool = Tool(id: string, name: string, description: string, space: string)

  /** The tool a lookup of `id` finds after the registrations `h`: the last one made under `id`. */
  function LastWithId(h: seq<Tool>, id: string): (r: Option<Tool>)
    ensures r.None? <==> forall i :: 0 <= i < |h| ==> h[i].id != id
    ensures r.Some? ==> r.value in h && r.value.id == id
  {
    if h == [] then None
    else if h[|h| - 1].id == id then Some(h[|h| - 1])
    else LastWithId(h[..|h| - 1], id)
  }

  /** A registration decides what a lookup of its id finds next and leaves every other id alone. */
  lemma RegisterThenGet(h: seq<Tool>, t: Tool, id: string)
    ensures LastWithId(h + [t], id) == if id == t.id then Some(t) else LastWithId(h, id)
  {
    Snoc(h, t);
  }

  /** The registrations of `h` made in `space`, in order, repeats included. */
  function InSpace(h: seq<Tool>, space: string): seq<Tool>
  {
    if h == [] then []
    else InSpace(h[..|h| - 1], space) + if h[|h| - 1].space == space then [h[|h| - 1]] else []
  }

  /** The spaces that at least one of the registrations `h` names. */
  function SpacesOf(h: seq<Tool>): set<string>
  {
    set i | 0 <= i < |h| :: h[i].space
  }

  /** The `tools` map after the registrations `h`. */
  function ById(h: seq<Tool>): map<string, Tool>
  {
    if h == [] then map[]
    else
      var t := h[|h| - 1];
      ById(h[..|h| - 1])[t.id := t]
  }

  /** The `bySpace` map after the registrations `h`. */
  function BySpace(h: seq<Tool>): map<string, seq<Tool>>
  {
    if h == [] then map[]
    else
      var m, t := BySpace(h[..|h| - 1]), h[|h| - 1];
      m[t.space := (if t.space in m then m[t.space] else []) + [t]]
  }

  lemma Snoc(h: seq<Tool>, t: Tool)
    ensures (h + [t])[..|h|] == h && (h + [t])[|h|] == t
  {
  }

  /** The id map holds, under each id, the last tool registered with it, and no other ids. */
  lemma {:induction false} ByIdIsLastWithId(h: seq<Tool>, id: string)
    ensures id in ById(h) <==> LastWithId(h, id).Some?
    ensures id in ById(h) ==> ById(h)[id] == LastWithId(h, id).value
  {
    if h != [] {
      ByIdIsLastWithId(h[..|h| - 1], id);
    }
  }

  /** The space index holds, under each space named by a registration, exactly the registrations in that space. */
  lemma {:induction false} BySpaceIsInSpace(h: seq<Tool>, space: string)
    ensures space in BySpace(h) <==> space in SpacesOf(h)
    ensures space in BySpace(h) ==> BySpace(h)[space] == InSpace(h, space)
    ensures space !in BySpace(h) ==> InSpace(h, space) == []
  {
    if h != [] {
      var p, t := h[..|h| - 1], h[|h| - 1];
      BySpaceIsInSpace(p, space);
      assert h == p + [t];
      assert SpacesOf(h) == SpacesOf(p) + {t.space} by {
        forall s | s in SpacesOf(h) ensures s in SpacesOf(p) + {t.space} {
          var i :| 0 <= i < |h| && h[i].space == s;
          if i < |p| { assert p[i] == h[i]; }
        }
        forall s | s in SpacesOf(p) ensures s in SpacesOf(h) {
          var i :| 0 <= i < |p| && p[i].space == s;
          assert h[i] == p[i];
        }
        assert h[|p|].space == t.space;
      }
    }
  }

  /** A tool is listed in a space exactly when it was registered in that space. */
  lemma {:induction false} InSpaceMembers(h: seq<Tool>, space: string, t: Tool)
    ensures t in InSpace(h, space) <==> t in h && t.space == space
  {
    if h != [] {
      var p := h[..|h| - 1];
      InSpaceMembers(p, space, t);
      assert h == p + [h[|h| - 1]];
    }
  }

  /** The tool stored under an id is listed in its space. */
  lemma StoredToolListed(h: seq<Tool>, id: string)
    requires id in ById(h)
    ensures ById(h)[id].space in BySpace(h)
    ensures ById(h)[id] in BySpace(h)[ById(h)[id].space]
  {
    ByIdIsLastWithId(h, id);
    var t := ById(h)[id];
    var i :| 0 <= i < |h| && h[i] == t;
    assert t.space in SpacesOf(h);
    BySpaceIsInSpace(h, t.space);
    InSpaceMembers(h, t.space, t);
  }

  /** Each registration grows exactly one space list, its own, by exactly one. */
  lemma RegisterGrowsOneList(h: seq<Tool>, t: Tool, space: string)
    ensures InSpace(h + [t], space) == InSpace(h, space) + if space == t.space then [t] else []
  {
    Snoc(h, t);
  }

  /**
   * Registering the same tool twice in a row leaves the id map as one
   * registration does, but lists the tool twice in its space.
   */
  lemma ReRegisterDuplicates(h: seq<Tool>, t: Tool)
    ensures ById(h + [t, t]) == ById(h + [t])
    ensures InSpace(h + [t, t], t.space) == InSpace(h, t.space) + [t, t]
  {
    assert (h + [t, t])[..|h| + 1] == h + [t];
    Snoc(h + [t], t);
    RegisterGrowsOneList(h, t, t.space);
    RegisterGrowsOneList(h + [t], t, t.space);
  }

  /** The catalog state of registry.go, with the registrations so far as its specification. */
  class Catalog {
    var tools: map<string, Tool>
    var bySpace: map<string, seq<Tool>>
    ghost var history: seq<Tool>

    ghost predicate Valid()
      reads this
    {
      tools == ById(history) && bySpace == BySpace(history)
    }

    /** The list Go's `bySpace[s]` reads: nil, here empty, for a space with no registrations. */
    function SpaceList(space: string): seq<Tool>
      reads this
    {
      if space in bySpace then bySpace[space] else []
    }

    /** Both maps start empty. */
    constructor ()
      ensures Valid() && history == []
      ensures tools == map[] && bySpace == map[]
    {
      tools, bySpace := map[], map[];
      history := [];
    }

    /** `RegisterTool`: overwrite the id entry, append to the end of the space's list. */
    method RegisterTool(t: Tool)
      requires Valid()
      modifies this
      ensures Valid() && history == old(history) + [t]
      ensures tools == old(tools)[t.id := t]
      ensures bySpace == old(bySpace)[t.space := old(SpaceList(t.space)) + [t]]
    {
      tools := tools[t.id := t];
      var s := t.space;
      var list := if s in bySpace then bySpace[s] else [];
      bySpace := bySpace[s := list + [t]];
      Snoc(history, t);
      history := history + [t];
    }

    /** `GetTool`: the tool last registered under `id`, or none (Go's nil). */
    method GetTool(id: string) returns (r: Option<Tool>)
      requires Valid()
      ensures r == if id in tools then Some(tools[id]) else None
      ensures r == LastWithId(history, id)
    {
      ByIdIsLastWithId(history, id);
      if id in tools {
        r := Some(tools[id]);
      } else {
        r := None;
      }
    }

    /** `ListSpaces`: every space with a registration, once each, in no particular order. */
    method ListSpaces() returns (spaces: seq<string>)
      requires Valid()
      ensures forall s :: s in spaces <==> s in bySpace
      ensures forall s :: s in spaces <==> s in SpacesOf(history)
      ensures forall i, j :: 0 <= i < j < |spaces| ==> spaces[i] != spaces[j]
      ensures |spaces| == |bySpace|
    {
      spaces := [];
      var rest := bySpace.Keys;
      while rest != {}
        invariant rest <= bySpace.Keys
        invariant forall s :: s in spaces ==> s in bySpace && s !in rest
        invariant forall s :: s in bySpace && s !in rest ==> s in spaces
        invariant forall i, j :: 0 <= i < j < |spaces| ==> spaces[i] != spaces[j]
        invariant |spaces| + |rest| == |bySpace|
        decreases |rest|
      {
        var s :| s in rest;
        spaces := spaces + [s];
        rest := rest - {s};
      }
      forall s
        ensures s in spaces <==> s in SpacesOf(history)
      {
        BySpaceIsInSpace(history, s);
      }
    }

    /** `ListToolsBySpace`: the registrations in `space` in order, empty for an unknown space. */
    method ListToolsBySpace(space: string) returns (ts: seq<Tool>)
      requires Valid()
      ensures ts == SpaceList(space)
      ensures ts == InSpace(history, space)
      ensures space !in SpacesOf(history) ==> ts == []
    {
      BySpaceIsInSpace(history, space);
      ts := if space in bySpace then bySpace[space] else [];
    }
  }
}
