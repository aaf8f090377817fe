/** The organisation service: a tree of organisations, each with an optional
    super-organisation, and the per-user permissions on them. The JPA repository
    is the map `organisations`; the sub-organisations of an organisation are the
    ones whose super-organisation it is. */
module OrganisationService {
  import opened Outcomes
  import opened Paging

  datatype Permission = Read | Write | Manage

  /** The API object sent by the client; the super-organisation is given by id. */
  datatype Organisation = Organisation(
    id: string, name: Option<string>, description: Option<string>, superOrganisation: Option<string>)

  /** A stored organisation. */
  datatype OrganisationRow = OrganisationRow(
    name: Option<string>, description: Option<string>, superOrganisation: Option<string>,
    members: map<string, Permission>)

  /** getOrganisations(name, page): `matches` stands for what the name/description
      query returns, in the repository's order. A null page is page index 1;
      otherwise the index is page - 1, and PageRequest refuses a negative index. */
  function GetOrganisations(matches: seq<Organisation>, page: Option<int>): (r: Result<seq<Organisation>>)
    ensures page.None? ==> r == Ok(PageContent(matches, 1))
    ensures page.Some? && page.value >= 1 ==> r == Ok(PageContent(matches, page.value - 1))
    ensures page.Some? && page.value < 1 ==> r == Fail(InternalServerError)
  {
    var index := if page.None? then 1 else page.value - 1;
    if index < 0 then Fail(InternalServerError) else Ok(PageContent(matches, index))
  }

  /** As written, omitting the page gives the second page, not the first: with
      eleven matches the call without a page returns only the eleventh. */
  lemma NullPageIsSecondPage(matches: seq<Organisation>)
    ensures GetOrganisations(matches, None) == GetOrganisations(matches, Some(2))
    ensures |matches| <= PageSize ==> GetOrganisations(matches, None) == Ok([])
    ensures |matches| == PageSize + 1 ==> GetOrganisations(matches, None) == Ok([matches[PageSize]])
  {
    if |matches| == PageSize + 1 {
      assert matches[PageSize..] == [matches[PageSize]];
    }
  }

  /** getOrganisations with the evident intent: a null page is the first page. */
  function GetOrganisationsIntended(matches: seq<Organisation>, page: Option<int>): (r: Result<seq<Organisation>>)
    ensures page.Some? && page.value >= 1 ==> r == Ok(PageContent(matches, page.value - 1))
    ensures page.Some? && page.value < 1 ==> r == Fail(InternalServerError)
    ensures page.None? ==> r == Ok(PageContent(matches, 0))
  {
    var index := if page.None? then 0 else page.value - 1;
    if index < 0 then Fail(InternalServerError) else Ok(PageContent(matches, index))
  }

  /** With the intended paging, no page means page 1, and the first PageSize
      matches (or all of them) are returned. */
  lemma NullPageIsFirstPage(matches: seq<Organisation>)
    ensures GetOrganisationsIntended(matches, None) == GetOrganisationsIntended(matches, Some(1))
    ensures GetOrganisationsIntended(matches, None)
         == Ok(if |matches| <= PageSize then matches else matches[..PageSize])
  {
  }

  /** Consecutive pages continue each other: pages 1 and 2 together are the first
      2 * PageSize matches. */
  lemma {:induction false} PagesAreConsecutive(matches: seq<Organisation>)
    requires |matches| >= 2 * PageSize
    ensures GetOrganisationsIntended(matches, Some(1)).value + GetOrganisationsIntended(matches, Some(2)).value
         == matches[..2 * PageSize]
  {
    assert matches[..2 * PageSize] == matches[..PageSize] + matches[PageSize..2 * PageSize];
  }

  class OrganisationStore {
    var organisations: map<string, OrganisationRow>

    /** Every super-organisation reference names a stored organisation. */
    ghost predicate Valid()
      reads this
    {
      forall o :: o in organisations && organisations[o].superOrganisation.Some? ==>
        organisations[o].superOrganisation.value in organisations
    }

    /** No organisation is its own super-organisation. */
    ghost predicate NoSelfParent()
      reads this
    {
      forall o :: o in organisations ==> organisations[o].superOrganisation != Some(o)
    }

    /** getSubOrganisations: the organisations whose super-organisation is `id`. */
    function SubOrganisations(id: string): (r: set<string>)
      reads this
      ensures forall o :: o in r <==> o in organisations && organisations[o].superOrganisation == Some(id)
    {
      set o | o in organisations && organisations[o].superOrganisation == Some(id)
    }

    /** toApiModel of a stored organisation. */
    function ToApiModel(id: string): (r: Organisation)
      reads this
      requires id in organisations
      ensures r.id == id && r.superOrganisation == organisations[id].superOrganisation
      ensures r.name == organisations[id].name && r.description == organisations[id].description
    {
      var row := organisations[id];
      Organisation(id, row.name, row.description, row.superOrganisation)
    }

    constructor ()
      ensures organisations == map[]
      ensures Valid() && NoSelfParent()
    {
      organisations := map[];
    }

    /** createOrganisation(data): CONFLICT for an existing id. The requested
        super-organisation is attached only when it exists; the current user, when
        there is one, is given MANAGE permission. */
    method CreateOrganisation(data: Organisation, currentUser: Option<string>) returns (r: Result<Organisation>)
      requires Valid()
      modifies this
      ensures Valid()
      ensures old(NoSelfParent()) ==> NoSelfParent()
      ensures data.id in old(organisations) ==> r == Fail(Conflict) && organisations == old(organisations)
      ensures data.id !in old(organisations) ==>
        var super := if data.superOrganisation.Some? && data.superOrganisation.value in old(organisations)
                     then data.superOrganisation else None;
        var members := if currentUser.Some? then map[currentUser.value := Manage] else map[];
        && organisations == old(organisations)[data.id := OrganisationRow(data.name, data.description, super, members)]
        && r == Ok(Organisation(data.id, data.name, data.description, super))
    {
      if data.id in organisations {
        return Fail(Conflict);
      }
      var super: Option<string> := None;
      if data.superOrganisation.Some? && data.superOrganisation.value in organisations {
        super := data.superOrganisation;
      }
      var members: map<string, Permission> := map[];
      if currentUser.Some? {
        members := members[currentUser.value := Manage];
      }
      organisations := organisations[data.id := OrganisationRow(data.name, data.description, super, members)];
      r := Ok(ToApiModel(data.id));
    }

    /** updateOrganisationById(id, data): NOT_FOUND for an unknown id. A requested
        super-organisation other than the organisation itself is attached when it
        exists; name and description are copied from the data. */
    method UpdateOrganisationById(id: string, data: Organisation) returns (r: Result<Organisation>)
      requires Valid()
      modifies this
      ensures Valid()
      ensures old(NoSelfParent()) ==> NoSelfParent()
      ensures id !in old(organisations) ==> r == Fail(NotFound) && organisations == old(organisations)
      ensures id in old(organisations) ==>
        var row := old(organisations)[id];
        var super := if data.superOrganisation.Some? && data.superOrganisation.value != id
                        && data.superOrganisation.value in old(organisations)
                     then data.superOrganisation else row.superOrganisation;
        && organisations == old(organisations)[id := row.(name := data.name, description := data.description,
                                                          superOrganisation := super)]
        && r == Ok(Organisation(id, data.name, data.description, super))
    {
      if id !in organisations {
        return Fail(NotFound);
      }
      var row := organisations[id];
      if data.superOrganisation.Some? && data.superOrganisation.value != id
         && data.superOrganisation.value in organisations {
        row := row.(superOrganisation := data.superOrganisation);
      }
      row := row.(name := data.name, description := data.description);
      organisations := organisations[id := row];
      r := Ok(ToApiModel(id));
    }

    /** deleteOrganisationById(id): NOT_FOUND for an unknown id; otherwise every
        sub-organisation is re-parented to the deleted organisation's
        super-organisation (null included), then the organisation is removed. */
    method DeleteOrganisationById(id: string) returns (r: Result<()>)
      requires Valid()
      modifies this
      ensures id !in old(organisations) ==> r == Fail(NotFound) && organisations == old(organisations)
      ensures id in old(organisations) ==> r == Ok(())
      ensures id in old(organisations) ==> organisations.Keys == old(organisations).Keys - {id}
      ensures id in old(organisations) ==> forall o :: o in organisations ==>
        organisations[o] == if old(organisations)[o].superOrganisation == Some(id)
                            then old(organisations)[o].(superOrganisation := old(organisations)[id].superOrganisation)
                            else old(organisations)[o]
      ensures id in old(organisations) && old(organisations)[id].superOrganisation != Some(id) ==> Valid()
    {
      if id !in organisations {
        return Fail(NotFound);
      }
      var super := organisations[id].superOrganisation;
      var subs := SubOrganisations(id);
      ghost var before := organisations;
      var todo := subs;
      while exists s :: s in todo
        invariant todo <= subs
        invariant organisations.Keys == before.Keys
        invariant forall o :: o in organisations ==>
          organisations[o] == if o in subs - todo then before[o].(superOrganisation := super) else before[o]
        decreases todo
      {
        var s :| s in todo;
        organisations := organisations[s := organisations[s].(superOrganisation := super)];
        todo := todo - {s};
      }
      organisations := organisations - {id};
      r := Ok(());
    }

    /** deleteOrganisationById with the evident intent that no organisation
        becomes its own super-organisation: a sub-organisation that would be
        re-parented to itself is left without a super-organisation. */
    method DeleteOrganisationByIdIntended(id: string) returns (r: Result<()>)
      requires Valid() && NoSelfParent()
      modifies this
      ensures Valid() && NoSelfParent()
      ensures id !in old(organisations) ==> r == Fail(NotFound) && organisations == old(organisations)
      ensures id in old(organisations) ==> r == Ok(())
      ensures id in old(organisations) ==> organisations.Keys == old(organisations).Keys - {id}
      ensures id in old(organisations) ==> forall o :: o in organisations ==>
        organisations[o] == if old(organisations)[o].superOrganisation != Some(id) then old(organisations)[o]
                            else if old(organisations)[id].superOrganisation == Some(o)
                            then old(organisations)[o].(superOrganisation := None)
                            else old(organisations)[o].(superOrganisation := old(organisations)[id].superOrganisation)
    {
      if id !in organisations {
        return Fail(NotFound);
      }
      var super := organisations[id].superOrganisation;
      var subs := SubOrganisations(id);
      ghost var before := organisations;
      var todo := subs;
      while exists s :: s in todo
        invariant todo <= subs
        invariant organisations.Keys == before.Keys
        invariant forall o :: o in organisations ==>
          organisations[o] == if o !in subs - todo then before[o]
                              else if super == Some(o) then before[o].(superOrganisation := None)
                              else before[o].(superOrganisation := super)
        decreases todo
      {
        var s :| s in todo;
        var parent := if super == Some(s) then None else super;
        organisations := organisations[s := organisations[s].(superOrganisation := parent)];
        todo := todo - {s};
      }
      organisations := organisations - {id};
      r := Ok(());
    }
  }

  /** As written, deleting an organisation inside a super-organisation cycle makes
      its sub-organisation its own super-organisation: with A under B and B under
      A (the update guard only refuses a direct self-reference), deleting A
      re-parents B to A's super-organisation, which is B. */
  method DeleteInCycleMakesSelfParent()
  {
    var store := new OrganisationStore();
    var _ := store.CreateOrganisation(Organisation("A", None, None, None), None);
    var _ := store.CreateOrganisation(Organisation("B", None, None, Some("A")), None);
    var _ := store.UpdateOrganisationById("A", Organisation("A", None, None, Some("B")));
    assert store.NoSelfParent();
    var _ := store.DeleteOrganisationById("A");
    assert "B" in store.organisations && store.organisations["B"].superOrganisation == Some("B");
    assert !store.NoSelfParent();
  }
}
