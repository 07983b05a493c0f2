/** Package profiles: the option groups a persona offers, and the plan its selections resolve to. */
module Profiles {
  import opened Common
  import opened Sequences

  datatype Selection = OneOf | AnyOf | Optional

  datatype Source = Official | Aur | Future

  datatype Choice = Choice(
    group: string, selection: Selection, identifier: string, caption: string, package: string, source: Source,
    profiles: set<string>, defaultProfiles: set<string>)

  // The choices of one group that a persona has.
  datatype Group = Group(name: string, selection: Selection, choices: seq<Choice>)

  datatype Plan = Plan(
    persona: string, packages: seq<string>, selections: map<string, seq<string>>, aurPackages: seq<string>,
    multilib: bool)

  // The option choices in file order, and the package manifests.
  datatype Repository = Repository(
    choices: seq<Choice>, base: seq<string>, desktop: seq<string>, general: seq<string>,
    layers: map<string, seq<string>>)

  const PERSONAS: set<string> := {"general", "gamer", "developer", "server", "minimal"}
  const HEADLESS: set<string> := {"minimal", "server"}

  // -- groups ------------------------------------------------------------------------

  function Offered(choices: seq<Choice>, persona: string): seq<Choice> {
    if choices == [] then []
    else
      var init, last := Offered(choices[..|choices| - 1], persona), choices[|choices| - 1];
      if persona in last.profiles then init + [last] else init
  }

  // The choices of one group, in order.
  function Of(choices: seq<Choice>, name: string): seq<Choice> {
    if choices == [] then []
    else
      var init, last := Of(choices[..|choices| - 1], name), choices[|choices| - 1];
      if last.group == name then init + [last] else init
  }

  function Names(choices: seq<Choice>): seq<string> {
    Unique(seq(|choices|, i requires 0 <= i < |choices| => choices[i].group))
  }

  lemma {:induction false} NamesHold(choices: seq<Choice>)
    ensures forall n :: n in Names(choices) <==> exists c <- choices :: c.group == n
    ensures forall i, j | 0 <= i < j < |Names(choices)| :: Names(choices)[i] != Names(choices)[j]
    ensures forall n <- Names(choices) :: Of(choices, n) != []
  {
    if choices != [] {
      var init, last := choices[..|choices| - 1], choices[|choices| - 1];
      NamesHold(init);
      NamesNext(init, last);
      assert choices == init + [last];
      forall n | n in Names(choices) ensures Of(choices, n) != [] {
        assert n == last.group || n in Names(init);
      }
    }
  }

  lemma NamesNext(init: seq<Choice>, last: Choice)
    ensures Names(init + [last]) == if last.group in Names(init) then Names(init) else Names(init) + [last.group]
  {
    var all := init + [last];
    var groups := seq(|all|, i requires 0 <= i < |all| => all[i].group);
    assert groups[..|groups| - 1] == seq(|init|, i requires 0 <= i < |init| => init[i].group);
  }

  function GroupOf(choices: seq<Choice>, name: string): Group
    requires name in Names(choices)
  {
    NamesHold(choices);
    Group(name, Of(choices, name)[0].selection, Of(choices, name))
  }

  function Grouped(choices: seq<Choice>): seq<Group> {
    seq(|Names(choices)|, i requires 0 <= i < |Names(choices)| => GroupOf(choices, Names(choices)[i]))
  }

  // The dictionary groups_for fills, from group name to its choices.
  function ByName(choices: seq<Choice>): map<string, seq<Choice>> {
    map n | n in Names(choices) :: Of(choices, n)
  }

  lemma ByNameNext(init: seq<Choice>, last: Choice)
    ensures var earlier := if last.group in ByName(init) then ByName(init)[last.group] else [];
            ByName(init + [last]) == ByName(init)[last.group := earlier + [last]]
  {
    NamesNext(init, last);
    NamesHold(init);
    OfNext(init, last);
    if last.group !in ByName(init) { NothingOf(init, last.group); }
  }

  // groups_for: a dictionary from group name to its choices, in the order the names first appear.
  method GroupsFor(choices: seq<Choice>, persona: string) returns (groups: seq<Group>)
    ensures groups == Grouped(Offered(choices, persona))
  {
    var order: seq<string> := [];
    var grouped: map<string, seq<Choice>> := map[];
    for i := 0 to |choices|
      invariant order == Names(Offered(choices[..i], persona))
      invariant grouped == ByName(Offered(choices[..i], persona))
    {
      var choice := choices[i];
      assert choices[..i + 1][..i] == choices[..i];
      if persona in choice.profiles {
        NamesNext(Offered(choices[..i], persona), choice);
        ByNameNext(Offered(choices[..i], persona), choice);
        if choice.group in grouped {
          grouped := grouped[choice.group := grouped[choice.group] + [choice]];
        } else {
          order := order + [choice.group];
          grouped := grouped[choice.group := [] + [choice]];
        }
      }
    }
    assert choices[..|choices|] == choices;
    groups := ListGroups(Offered(choices, persona), order, grouped);
  }

  // The tuple of groups made from the dictionary's items.
  method ListGroups(ghost offered: seq<Choice>, order: seq<string>, grouped: map<string, seq<Choice>>)
    returns (groups: seq<Group>)
    requires order == Names(offered) && grouped == ByName(offered)
    ensures groups == Grouped(offered)
  {
    NamesHold(offered);
    groups := [];
    for i := 0 to |order|
      invariant groups == Grouped(offered)[..i]
    {
      groups := groups + [Group(order[i], grouped[order[i]][0].selection, grouped[order[i]])];
    }
  }

  lemma OfNext(init: seq<Choice>, last: Choice)
    ensures forall n :: Of(init + [last], n) == if last.group == n then Of(init, n) + [last] else Of(init, n)
  {
    assert (init + [last])[..|init|] == init;
  }

  lemma {:induction false} NothingOf(choices: seq<Choice>, name: string)
    requires forall c <- choices :: c.group != name
    ensures Of(choices, name) == []
  {
    if choices != [] {
      NothingOf(choices[..|choices| - 1], name);
    }
  }

  // -- picking within a group -------------------------------------------------------------

  function Defaults(choices: seq<Choice>, persona: string): seq<string> {
    if choices == [] then []
    else
      var init, last := Defaults(choices[..|choices| - 1], persona), choices[|choices| - 1];
      if persona in last.defaultProfiles then init + [last.identifier] else init
  }

  // The last choice with an identifier, as a dictionary keyed by identifier keeps it.
  function Find(choices: seq<Choice>, identifier: string): Option<Choice> {
    if choices == [] then None
    else if choices[|choices| - 1].identifier == identifier then Some(choices[|choices| - 1])
    else Find(choices[..|choices| - 1], identifier)
  }

  function Asked(g: Group, persona: string, requested: map<string, seq<string>>): seq<string> {
    Unique(if g.name in requested then requested[g.name] else Defaults(g.choices, persona))
  }

  predicate RightCount(g: Group, identifiers: seq<string>) {
    && (g.selection == OneOf ==> |identifiers| == 1)
    && (g.selection == Optional ==> |identifiers| <= 1)
  }

  predicate AllKnown(g: Group, identifiers: seq<string>) {
    forall id <- identifiers :: Find(g.choices, id).Some?
  }

  predicate AllInstallable(g: Group, identifiers: seq<string>)
    requires AllKnown(g, identifiers)
  {
    forall id <- identifiers :: Find(g.choices, id).value.source != Future
  }

  function Pick(g: Group, persona: string, requested: map<string, seq<string>>): (r: Result<seq<string>>)
    ensures r.Ok? ==> AllKnown(g, r.value)
  {
    var identifiers := Asked(g, persona, requested);
    if !RightCount(g, identifiers) then Err("wrong number of choices")
    else if !AllKnown(g, identifiers) then Err("invalid choices")
    else if !AllInstallable(g, identifiers) then Err("planned but not installable yet")
    else Ok(identifiers)
  }

  // The packages of some choices, in order; only those from the AUR when so asked.
  function PackagesOf(g: Group, identifiers: seq<string>, aurOnly: bool): seq<string>
    requires AllKnown(g, identifiers)
  {
    if identifiers == [] then []
    else
      var init, last := identifiers[..|identifiers| - 1], identifiers[|identifiers| - 1];
      assert last in identifiers;
      var choice := Find(g.choices, last).value;
      PackagesOf(g, init, aurOnly) + if aurOnly && choice.source != Aur then [] else [choice.package]
  }

  // What the groups up to some point contribute.
  datatype Picked = Picked(selections: map<string, seq<string>>, packages: seq<string>, aur: seq<string>)

  function PickAll(groups: seq<Group>, persona: string, requested: map<string, seq<string>>): (r: Result<Picked>)
  {
    if groups == [] then Ok(Picked(map[], [], []))
    else
      var init, last := PickAll(groups[..|groups| - 1], persona, requested), groups[|groups| - 1];
      if init.Err? then init
      else
        var ids := Pick(last, persona, requested);
        if ids.Err? then Err(ids.reason)
        else
          Ok(Picked(
               init.value.selections[last.name := ids.value],
               init.value.packages + PackagesOf(last, ids.value, false),
               init.value.aur + PackagesOf(last, ids.value, true)))
  }

  // -- the plan ---------------------------------------------------------------------------------

  function Layers(repo: Repository, persona: string): seq<string> {
    repo.base
    + (if persona !in HEADLESS then repo.desktop + repo.general else [])
    + if persona != "general" && persona in repo.layers then repo.layers[persona] else []
  }

  predicate NeedsMultilib(packages: seq<string>) {
    exists p <- packages :: p == "steam" || StartsWith(p, "lib32-")
  }

  function MakePlan(persona: string, layers: seq<string>, picked: Picked): Plan {
    var packages := Unique(layers + picked.packages);
    Plan(persona, packages, picked.selections, Unique(picked.aur), NeedsMultilib(packages))
  }

  function GroupNames(groups: seq<Group>): set<string> {
    set g <- groups :: g.name
  }

  function Resolve(repo: Repository, persona: string, requested: map<string, seq<string>>): Result<Plan> {
    if persona !in PERSONAS then Err("unknown persona")
    else
      var groups := Grouped(Offered(repo.choices, persona));
      if !(requested.Keys <= GroupNames(groups)) then Err("unknown option groups")
      else
        var picked := PickAll(groups, persona, requested);
        if picked.Err? then Err(picked.reason)
        else Ok(MakePlan(persona, Layers(repo, persona), picked.value))
  }

  // The loop over one group's identifiers.
  method TakePackages(g: Group, identifiers: seq<string>, packages: seq<string>, aur: seq<string>)
    returns (r: Result<(seq<string>, seq<string>)>)
    requires AllKnown(g, identifiers)
    ensures r.Ok? <==> AllInstallable(g, identifiers)
    ensures r.Ok? ==> r.value == (packages + PackagesOf(g, identifiers, false), aur + PackagesOf(g, identifiers, true))
    ensures r.Err? ==> r.reason == "planned but not installable yet"
  {
    var all, fromAur := packages, aur;
    for i := 0 to |identifiers|
      invariant AllKnown(g, identifiers[..i]) && AllInstallable(g, identifiers[..i])
      invariant all == packages + PackagesOf(g, identifiers[..i], false)
      invariant fromAur == aur + PackagesOf(g, identifiers[..i], true)
    {
      var choice := Find(g.choices, identifiers[i]).value;
      assert identifiers[..i + 1][..i] == identifiers[..i] && identifiers[..i + 1][i] == identifiers[i];
      if choice.source == Future {
        return Err("planned but not installable yet");
      }
      all := all + [choice.package];
      if choice.source == Aur {
        fromAur := fromAur + [choice.package];
      }
    }
    assert identifiers[..|identifiers|] == identifiers;
    return Ok((all, fromAur));
  }

  method ResolvePlan(repo: Repository, persona: string, requested: map<string, seq<string>>)
    returns (r: Result<Plan>)
    ensures r == Resolve(repo, persona, requested)
  {
    if persona !in PERSONAS {
      return Err("unknown persona");
    }
    var groups := GroupsFor(repo.choices, persona);
    if !(requested.Keys <= GroupNames(groups)) {
      return Err("unknown option groups");
    }
    var layers := Layers(repo, persona);
    var resolved: map<string, seq<string>> := map[];
    var packages: seq<string> := [];
    var aur: seq<string> := [];
    for i := 0 to |groups|
      invariant PickAll(groups[..i], persona, requested) == Ok(Picked(resolved, packages, aur))
    {
      var g := groups[i];
      assert groups[..i + 1][..i] == groups[..i];
      ghost var next := PickAll(groups[..i + 1], persona, requested);
      PickAllFails(groups, i + 1, persona, requested);
      var identifiers := Asked(g, persona, requested);
      if g.selection == OneOf && |identifiers| != 1 {
        return Err("wrong number of choices");
      }
      if g.selection == Optional && |identifiers| > 1 {
        return Err("wrong number of choices");
      }
      if !AllKnown(g, identifiers) {
        return Err("invalid choices");
      }
      resolved := resolved[g.name := identifiers];
      var taken := TakePackages(g, identifiers, packages, aur);
      if taken.Err? {
        return Err(taken.reason);
      }
      packages, aur := taken.value.0, taken.value.1;
    }
    assert groups[..|groups|] == groups;
    return Ok(MakePlan(persona, layers, Picked(resolved, packages, aur)));
  }

  // The first group that fails decides the error.
  lemma {:induction false} PickAllFails(
      groups: seq<Group>, n: nat, persona: string, requested: map<string, seq<string>>)
    requires n <= |groups|
    ensures PickAll(groups[..n], persona, requested).Err?
        ==> PickAll(groups, persona, requested) == PickAll(groups[..n], persona, requested)
    decreases |groups|
  {
    if n == |groups| {
      assert groups[..n] == groups;
    } else {
      var init := groups[..|groups| - 1];
      PickAllFails(init, n, persona, requested);
      assert init[..n] == groups[..n];
    }
  }

  // -- a plan resolves to itself ------------------------------------------------------------------

  // The plan has the selection of every group, in the plan's own terms.
  ghost predicate Holds(selections: map<string, seq<string>>, groups: seq<Group>, persona: string,
                        requested: map<string, seq<string>>)
  {
    && selections.Keys == GroupNames(groups)
    && (forall g <- groups :: selections[g.name] == Asked(g, persona, requested))
    && (forall g <- groups :: Pick(g, persona, requested) == Ok(Asked(g, persona, requested)))
  }

  lemma HoldsNext(selections: map<string, seq<string>>, init: seq<Group>, last: Group, persona: string,
                  requested: map<string, seq<string>>)
    requires Holds(selections, init, persona, requested)
    requires forall g <- init :: g.name != last.name
    requires Pick(last, persona, requested).Ok?
    ensures Holds(selections[last.name := Pick(last, persona, requested).value], init + [last], persona, requested)
  {
    assert GroupNames(init + [last]) == GroupNames(init) + {last.name};
  }

  lemma {:induction false} PickedSelections(groups: seq<Group>, persona: string, requested: map<string, seq<string>>)
    requires forall i, j | 0 <= i < j < |groups| :: groups[i].name != groups[j].name
    requires PickAll(groups, persona, requested).Ok?
    ensures Holds(PickAll(groups, persona, requested).value.selections, groups, persona, requested)
  {
    if groups != [] {
      var init, last := groups[..|groups| - 1], groups[|groups| - 1];
      assert groups == init + [last];
      PickedSelections(init, persona, requested);
      HoldsNext(PickAll(init, persona, requested).value.selections, init, last, persona, requested);
    }
  }

  // Requests that ask every group for the same pick the same.
  lemma {:induction false} SamePicks(
      groups: seq<Group>, persona: string, r: map<string, seq<string>>, s: map<string, seq<string>>)
    requires forall g <- groups :: Asked(g, persona, r) == Asked(g, persona, s)
    ensures PickAll(groups, persona, r) == PickAll(groups, persona, s)
  {
    if groups != [] {
      SamePicks(groups[..|groups| - 1], persona, r, s);
      assert groups[|groups| - 1] in groups;
    }
  }

  lemma GroupsAreNamedApart(choices: seq<Choice>)
    ensures var groups := Grouped(choices);
            forall i, j | 0 <= i < j < |groups| :: groups[i].name != groups[j].name
  {
    NamesHold(choices);
  }

  // Resolving a plan's own selections gives the plan again.
  lemma ResolveIsFixed(repo: Repository, persona: string, requested: map<string, seq<string>>)
    requires Resolve(repo, persona, requested).Ok?
    ensures var plan := Resolve(repo, persona, requested).value;
            Resolve(repo, plan.persona, plan.selections) == Ok(plan)
  {
    var offered := Offered(repo.choices, persona);
    var groups := Grouped(offered);
    GroupsAreNamedApart(offered);
    PickedSelections(groups, persona, requested);
    var plan := Resolve(repo, persona, requested).value;
    forall g | g in groups
      ensures Asked(g, persona, plan.selections) == Asked(g, persona, requested)
    {
      UniqueTwice(if g.name in requested then requested[g.name] else Defaults(g.choices, persona));
    }
    SamePicks(groups, persona, requested, plan.selections);
  }

  // A plan offers no more than its groups allow: every offered group has its selection, one-of groups
  // exactly one, optional groups at most one, all of them offered to the persona and none planned
  // for later.
  lemma PlanIsAllowed(repo: Repository, persona: string, requested: map<string, seq<string>>, g: Group)
    requires Resolve(repo, persona, requested).Ok? && g in Grouped(Offered(repo.choices, persona))
    ensures var selections := Resolve(repo, persona, requested).value.selections;
            && g.name in selections
            && RightCount(g, selections[g.name])
            && AllKnown(g, selections[g.name]) && AllInstallable(g, selections[g.name])
            && (g.name in requested ==> forall id :: id in selections[g.name] <==> id in requested[g.name])
  {
    var groups := Grouped(Offered(repo.choices, persona));
    GroupsAreNamedApart(Offered(repo.choices, persona));
    PickedSelections(groups, persona, requested);
    if g.name in requested { UniqueHolds(requested[g.name]); }
  }

  // Every package installed is listed once, and every AUR package is among those installed.
  lemma {:induction false} AurAreInstalled(groups: seq<Group>, persona: string, requested: map<string, seq<string>>)
    requires PickAll(groups, persona, requested).Ok?
    ensures var picked := PickAll(groups, persona, requested).value;
            forall p <- picked.aur :: p in picked.packages
  {
    if groups != [] {
      var init, last := groups[..|groups| - 1], groups[|groups| - 1];
      AurAreInstalled(init, persona, requested);
      AurAreAmong(last, Pick(last, persona, requested).value);
    }
  }

  lemma {:induction false} AurAreAmong(g: Group, identifiers: seq<string>)
    requires AllKnown(g, identifiers)
    ensures forall p <- PackagesOf(g, identifiers, true) :: p in PackagesOf(g, identifiers, false)
  {
    if identifiers != [] {
      AurAreAmong(g, identifiers[..|identifiers| - 1]);
    }
  }

  lemma PlanListsOnce(repo: Repository, persona: string, requested: map<string, seq<string>>)
    requires Resolve(repo, persona, requested).Ok?
    ensures var plan := Resolve(repo, persona, requested).value;
            && (forall i, j | 0 <= i < j < |plan.packages| :: plan.packages[i] != plan.packages[j])
            && (forall p <- plan.aurPackages :: p in plan.packages)
            && (forall p <- Layers(repo, persona) :: p in plan.packages)
  {
    var picked := PickAll(Grouped(Offered(repo.choices, persona)), persona, requested).value;
    AurAreInstalled(Grouped(Offered(repo.choices, persona)), persona, requested);
    UniqueHolds(Layers(repo, persona) + picked.packages);
    UniqueHolds(picked.aur);
  }
}
