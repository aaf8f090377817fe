/** A directory node: a named group of repositories and ontologies, contained in
    super-directories through BELONGS_TO relations. Java's null is `None`. */
module Directories {
  import opened Outcomes

  /** The super-directory set after adding `added` to `current`, which a null
      field first turns into an empty set. */
  function WithSuperDirectories<T>(current: Option<set<T>>, added: set<T>): (r: set<T>)
    ensures added <= r
    ensures current.Some? ==> current.value <= r
    ensures forall d :: d in r ==> d in added || (current.Some? && d in current.value)
  {
    match current
    case None => added
    case Some(s) => s + added
  }

  /** Adding the same directories again has no further effect. */
  lemma AddingTwiceIsAddingOnce<T>(current: Option<set<T>>, added: set<T>)
    ensures WithSuperDirectories(Some(WithSuperDirectories(current, added)), added)
         == WithSuperDirectories(current, added)
  {
  }

  class Directory {
    /** Unique id, fixed when the object is built. */
    const id: string
    var name: Option<string>
    var description: Option<string>
    /** The dynamic labels saying what this directory represents. */
    var types: Option<set<string>>
    var properties: Option<string>
    /** The directories this one belongs to. */
    var superDirectories: Option<set<Directory>>

    /** The no-argument constructor: the id is a freshly generated UUID, passed in
        here because randomness is outside the model. */
    constructor Generated(uuid: string)
      ensures id == uuid
      ensures name == None && description == None && types == None && properties == None
      ensures superDirectories == None
    {
      id := uuid;
      name := None;
      description := None;
      types := None;
      properties := None;
      superDirectories := None;
    }

    /** The persistence constructor: the id is supplied. */
    constructor (id: string)
      ensures this.id == id
      ensures name == None && description == None && types == None && properties == None
      ensures superDirectories == None
    {
      this.id := id;
      name := None;
      description := None;
      types := None;
      properties := None;
      superDirectories := None;
    }

    /** addSuperDirectories: create the set when it is null, then add every
        given directory, keeping the existing ones. */
    method AddSuperDirectories(ds: set<Directory>) returns (self: Directory)
      modifies this
      ensures self == this
      ensures superDirectories == Some(WithSuperDirectories(old(superDirectories), ds))
      ensures ds <= superDirectories.value
      ensures old(superDirectories).Some? ==> old(superDirectories).value <= superDirectories.value
      ensures name == old(name) && description == old(description)
      ensures types == old(types) && properties == old(properties)
    {
      if superDirectories == None {
        superDirectories := Some({});
        assert {} + ds == ds;
      }
      superDirectories := Some(superDirectories.value + ds);
      self := this;
    }

    /** addSuperDirectory(d): addSuperDirectories of the singleton {d}. */
    method AddSuperDirectory(d: Directory) returns (self: Directory)
      modifies this
      ensures self == this
      ensures superDirectories == Some(WithSuperDirectories(old(superDirectories), {d}))
      ensures d in superDirectories.value
      ensures name == old(name) && description == old(description)
      ensures types == old(types) && properties == old(properties)
    {
      self := AddSuperDirectories({d});
    }

    /** setSuperDirectories replaces the set wholesale (null included). */
    method SetSuperDirectories(ds: Option<set<Directory>>) returns (self: Directory)
      modifies this
      ensures self == this && superDirectories == ds
      ensures name == old(name) && description == old(description)
      ensures types == old(types) && properties == old(properties)
    {
      superDirectories := ds;
      self := this;
    }

    method SetName(n: Option<string>) returns (self: Directory)
      modifies this
      ensures self == this && name == n
      ensures description == old(description) && types == old(types)
      ensures properties == old(properties) && superDirectories == old(superDirectories)
    {
      name := n;
      self := this;
    }

    method SetDescription(d: Option<string>) returns (self: Directory)
      modifies this
      ensures self == this && description == d
      ensures name == old(name) && types == old(types)
      ensures properties == old(properties) && superDirectories == old(superDirectories)
    {
      description := d;
      self := this;
    }

    method SetTypes(t: Option<set<string>>) returns (self: Directory)
      modifies this
      ensures self == this && types == t
      ensures name == old(name) && description == old(description)
      ensures properties == old(properties) && superDirectories == old(superDirectories)
    {
      types := t;
      self := this;
    }

    method SetProperties(p: Option<string>) returns (self: Directory)
      modifies this
      ensures self == this && properties == p
      ensures name == old(name) && description == old(description)
      ensures types == old(types) && superDirectories == old(superDirectories)
    {
      properties := p;
      self := this;
    }
  }

  /** Adding a directory a second time leaves the super-directories unchanged. */
  method AddSuperDirectoryTwice(dir: Directory, d: Directory)
    modifies dir
    ensures dir.superDirectories == Some(WithSuperDirectories(old(dir.superDirectories), {d}))
  {
    var _ := dir.AddSuperDirectory(d);
    ghost var once := dir.superDirectories;
    var _ := dir.AddSuperDirectory(d);
    assert dir.superDirectories == once by {
      AddingTwiceIsAddingOnce(old(dir.superDirectories), {d});
    }
  }
}
