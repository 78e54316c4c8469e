/** Who a session is to the tree, how two of them stand to each other, and who may reach whom:
    `src/policy.rs`. */
module Policy {
  import opened Options

  datatype Whom = Whom(project: string, id: string, parent: Option<string>,
                       session: Option<string>, root: Option<string>)
  {
    predicate IsMain() {
      parent.None?
    }

    /** Which run it was born in; a session with no note is a run of its own. */
    function SessionRoot(): string {
      if session.Some? then session.value else id
    }

    /** Which run it belongs to as the tree stands now. */
    function TreeRoot(): string {
      if root.Some? then root.value else SessionRoot()
    }
  }

  datatype Relation = Myself | Parent | Child | Sibling | Kin | Root | Cousin | Elsewhere

  datatype Reach = Ask | Tell | Stop

  datatype Talk = Mains | Instance | Project

  /** How `them` stands to `me`. */
  function Between(me: Whom, them: Whom): Relation {
    if me.project != them.project then Elsewhere
    else if me.id == them.id then Myself
    else if me.parent == Some(them.id) then Parent
    else if them.parent == Some(me.id) then Child
    else if me.parent.Some? && me.parent == them.parent then Sibling
    else if me.TreeRoot() == them.TreeRoot() then Kin
    else if them.IsMain() then Root
    else Cousin
  }

  predicate MayAt(me: Whom, relation: Relation, reach: Reach, talk: Talk) {
    if reach == Stop then relation == Child
    else
      match relation
      case Elsewhere => false
      case Myself | Parent | Child => true
      case Sibling | Kin => talk == Instance || talk == Project
      case Root => me.IsMain() || talk == Project
      case Cousin => talk == Project
  }

  /** Each names the other as the one it answers to: a ring of two. */
  predicate Mutual(a: Whom, b: Whom) {
    a.parent == Some(b.id) && b.parent == Some(a.id)
  }

  /** The spawn link reads the same from both ends exactly when the two are not a ring of two; a ring
      reads as a parent from both. Being siblings, or kin, always reads the same from both ends. */
  lemma BothEndsAgree(a: Whom, b: Whom)
    ensures !Mutual(a, b) ==> (Between(a, b) == Parent <==> Between(b, a) == Child)
    ensures Mutual(a, b) && a.project == b.project && a.id != b.id ==>
              Between(a, b) == Parent && Between(b, a) == Parent
    ensures Between(a, b) in {Myself, Sibling, Kin, Elsewhere} ==> Between(b, a) == Between(a, b)
    ensures Between(a, b) == Root ==> Between(b, a) in {Root, Cousin}
  {
  }

  /** Each setting only ever opens what a tighter one left shut, and none widens who may stop. */
  lemma SettingsOnlyOpen(me: Whom, relation: Relation, reach: Reach)
    ensures MayAt(me, relation, reach, Mains) ==> MayAt(me, relation, reach, Instance)
    ensures MayAt(me, relation, reach, Instance) ==> MayAt(me, relation, reach, Project)
    ensures MayAt(me, relation, Stop, Mains) == MayAt(me, relation, Stop, Project)
  {
  }

  /** Stopping takes being the one the target's own note names, and never works both ways. */
  lemma OnlyTheParentStops(me: Whom, them: Whom, talk: Talk)
    ensures MayAt(me, Between(me, them), Stop, talk) ==>
              && me.project == them.project && me.id != them.id && them.parent == Some(me.id)
              && !MayAt(them, Between(them, me), Stop, talk)
  {
  }

  /** They answer to the same session. */
  predicate OneParent(a: Whom, b: Whom) {
    a.parent.Some? && b.parent.Some? && a.parent.value == b.parent.value
  }

  /** One names the other as the session it answers to. */
  predicate Linked(a: Whom, b: Whom) {
    a.parent == Some(b.id) || b.parent == Some(a.id)
  }

  /** Who may be asked or told, with no word of relations: nobody of another project; oneself, and across a
      link, always; whoever answers to the same session or belongs to the same tree, where the setting
      is wider than `mains`; one main by another of another tree, always; and anybody under `project`. */
  lemma ReachExactly(me: Whom, them: Whom, reach: Reach, talk: Talk)
    requires reach != Stop
    ensures MayAt(me, Between(me, them), reach, talk) <==>
            && me.project == them.project
            && (|| talk == Project || me.id == them.id || Linked(me, them)
                || (talk == Instance && (OneParent(me, them) || me.TreeRoot() == them.TreeRoot()))
                || (me.parent.None? && them.parent.None? && me.TreeRoot() != them.TreeRoot()))
  {
  }

  /** And who may be stopped: by the session it names as its parent, but for a ring of two. */
  lemma StopExactly(me: Whom, them: Whom, talk: Talk)
    ensures MayAt(me, Between(me, them), Stop, talk) <==>
            && me.project == them.project && me.id != them.id
            && them.parent == Some(me.id) && me.parent != Some(them.id)
  {
  }

  /** The relations that do not turn on a link: another main, or somebody else's subagent, is of another
      tree; siblings need not be of one. */
  lemma FarRelations(me: Whom, them: Whom)
    requires me.project == them.project && me.id != them.id && !Linked(me, them)
    ensures Between(me, them) == Sibling <==> OneParent(me, them)
    ensures Between(me, them) == Kin <==> !OneParent(me, them) && me.TreeRoot() == them.TreeRoot()
    ensures Between(me, them) == Root <==> me.TreeRoot() != them.TreeRoot() && them.parent.None?
    ensures Between(me, them) == Cousin <==>
            me.TreeRoot() != them.TreeRoot() && them.parent.Some? && !OneParent(me, them)
  {
  }

  /** The tree a session is of: the top it was found under, else the run it was born in, else its own. */
  lemma TreeOf(who: Whom)
    ensures who.root.Some? ==> who.TreeRoot() == who.root.value
    ensures who.root.None? && who.session.Some? ==> who.TreeRoot() == who.session.value
    ensures who.root.None? && who.session.None? ==> who.TreeRoot() == who.id
  {
  }
}
