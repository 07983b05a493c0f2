/**
 What a resolved plan contains, in terms of the listed choices and the package manifests alone: which
 identifiers are selected, which packages are installed and in which order, and which requests resolve.
 */
module PlanContents {
  import opened Common
  import opened Profiles
  import opened Sequences

  // -- choices ---------------------------------------------------------------------

  predicate Matches(c: Choice, persona: string, group: string, identifier: string) {
    persona in c.profiles && c.group == group && c.identifier == identifier
  }

  // The choice of that identifier in a group offered to the persona: the last one listed.
  ghost predicate Latest(choices: seq<Choice>, persona: string, group: string, identifier: string, i: nat) {
    && i < |choices| && Matches(choices[i], persona, group, identifier)
    && forall j | i < j < |choices| :: !Matches(choices[j], persona, group, identifier)
  }

  lemma {:induction false} FindIsLatest(choices: seq<Choice>, persona: string, group: string, identifier: string)
    ensures var found := Find(Of(Offered(choices, persona), group), identifier);
            && (found.Some? ==>
                  exists i: nat :: Latest(choices, persona, group, identifier, i) && choices[i] == found.value)
            && (found.None? ==> forall c <- choices :: !Matches(c, persona, group, identifier))
  {
    if choices != [] {
      var init, last := choices[..|choices| - 1], choices[|choices| - 1];
      FindIsLatest(init, persona, group, identifier);
      assert choices == init + [last];
      OfOffered(choices, persona, group);
      if Matches(last, persona, group, identifier) {
        assert Latest(choices, persona, group, identifier, |choices| - 1);
      } else {
        var found := Find(Of(Offered(init, persona), group), identifier);
        assert Find(Of(Offered(choices, persona), group), identifier) == found;
        if found.Some? {
          var i: nat :| Latest(init, persona, group, identifier, i) && init[i] == found.value;
          assert Latest(choices, persona, group, identifier, i);
        }
      }
    }
  }

  lemma OfOffered(choices: seq<Choice>, persona: string, group: string)
    requires choices != []
    ensures var init, last := choices[..|choices| - 1], choices[|choices| - 1];
            Of(Offered(choices, persona), group) ==
            if persona in last.profiles && last.group == group then Of(Offered(init, persona), group) + [last]
            else Of(Offered(init, persona), group)
  {
    var init, last := choices[..|choices| - 1], choices[|choices| - 1];
    if persona in last.profiles {
      OfNext(Offered(init, persona), last);
    }
  }

  // What is selected, group by group in the given order.
  function Pairs(names: seq<string>, selections: map<string, seq<string>>): seq<(string, string)> {
    if names == [] then []
    else
      var init, last := Pairs(names[..|names| - 1], selections), names[|names| - 1];
      init + if last in selections then PairsOf(last, selections[last]) else []
  }

  function PairsOf(group: string, identifiers: seq<string>): seq<(string, string)> {
    seq(|identifiers|, i requires 0 <= i < |identifiers| => (group, identifiers[i]))
  }

  // The pair stands for a choice of that package.
  ghost predicate Sold(choices: seq<Choice>, persona: string, pair: (string, string), package: string) {
    exists i: nat :: Latest(choices, persona, pair.0, pair.1, i) && choices[i].package == package
  }

  // Each pair contributes the package of its choice.
  ghost predicate Sells(choices: seq<Choice>, persona: string, pairs: seq<(string, string)>, packages: seq<string>) {
    |packages| == |pairs| && forall k | 0 <= k < |pairs| :: Sold(choices, persona, pairs[k], packages[k])
  }

  lemma SellsTogether(
      choices: seq<Choice>, persona: string, a: seq<(string, string)>, p: seq<string>,
      b: seq<(string, string)>, q: seq<string>)
    requires Sells(choices, persona, a, p) && Sells(choices, persona, b, q)
    ensures Sells(choices, persona, a + b, p + q)
  {
    var pairs, packages := a + b, p + q;
    forall k | 0 <= k < |pairs| ensures Sold(choices, persona, pairs[k], packages[k]) {
      if k < |a| {
        assert pairs[k] == a[k] && packages[k] == p[k];
      } else {
        assert pairs[k] == b[k - |a|] && packages[k] == q[k - |a|];
      }
    }
  }

  // The package of each identifier's choice, one after the other.
  lemma {:induction false} PackagesInOrder(g: Group, identifiers: seq<string>)
    requires AllKnown(g, identifiers)
    ensures |PackagesOf(g, identifiers, false)| == |identifiers|
    ensures forall k | 0 <= k < |identifiers| ::
              PackagesOf(g, identifiers, false)[k] == Find(g.choices, identifiers[k]).value.package
  {
    if identifiers != [] {
      PackagesInOrder(g, identifiers[..|identifiers| - 1]);
    }
  }

  lemma GroupSells(choices: seq<Choice>, persona: string, g: Group, identifiers: seq<string>)
    requires OfferedGroup(choices, persona, g) && AllKnown(g, identifiers)
    ensures Sells(choices, persona, PairsOf(g.name, identifiers), PackagesOf(g, identifiers, false))
  {
    PackagesInOrder(g, identifiers);
    forall k | 0 <= k < |identifiers|
      ensures Sold(choices, persona, (g.name, identifiers[k]), PackagesOf(g, identifiers, false)[k])
    {
      FindIsLatest(choices, persona, g.name, identifiers[k]);
    }
  }

  ghost predicate OfferedGroup(choices: seq<Choice>, persona: string, g: Group) {
    g.choices == Of(Offered(choices, persona), g.name)
  }

  function NamesOf(groups: seq<Group>): seq<string> {
    seq(|groups|, i requires 0 <= i < |groups| => groups[i].name)
  }

  lemma {:induction false} PairsKeep(names: seq<string>, s: map<string, seq<string>>, t: map<string, seq<string>>)
    requires forall n <- names :: n in s && n in t && s[n] == t[n]
    ensures Pairs(names, s) == Pairs(names, t)
  {
    if names != [] {
      PairsKeep(names[..|names| - 1], s, t);
      assert names[|names| - 1] in names;
    }
  }

  lemma PairsNext(init: seq<Group>, last: Group, s: map<string, seq<string>>, t: map<string, seq<string>>)
    requires s.Keys == GroupNames(init) && (forall g <- init :: g.name != last.name)
    requires last.name in t && t == s[last.name := t[last.name]]
    ensures Pairs(NamesOf(init + [last]), t) == Pairs(NamesOf(init), s) + PairsOf(last.name, t[last.name])
  {
    var names := NamesOf(init + [last]);
    assert names[..|names| - 1] == NamesOf(init) && names[|names| - 1] == last.name;
    PairsKeep(NamesOf(init), s, t);
  }

  lemma {:induction false} PickedSells(
      choices: seq<Choice>, groups: seq<Group>, persona: string, requested: map<string, seq<string>>)
    requires forall g <- groups :: OfferedGroup(choices, persona, g)
    requires forall i, j | 0 <= i < j < |groups| :: groups[i].name != groups[j].name
    requires PickAll(groups, persona, requested).Ok?
    ensures var picked := PickAll(groups, persona, requested).value;
            Sells(choices, persona, Pairs(NamesOf(groups), picked.selections), picked.packages)
    decreases |groups|
  {
    if groups != [] {
      var init, last := groups[..|groups| - 1], groups[|groups| - 1];
      assert groups == init + [last];
      var before, picked := PickAll(init, persona, requested).value, PickAll(groups, persona, requested).value;
      var ids := Pick(last, persona, requested).value;
      PickedSells(choices, init, persona, requested);
      PickedSelections(init, persona, requested);
      GroupSells(choices, persona, last, ids);
      PairsNext(init, last, before.selections, picked.selections);
      SellsTogether(choices, persona, Pairs(NamesOf(init), before.selections), before.packages,
                    PairsOf(last.name, ids), PackagesOf(last, ids, false));
    }
  }

  lemma GroupsAreOffered(choices: seq<Choice>, persona: string)
    ensures var groups := Grouped(Offered(choices, persona));
            && (forall g <- groups :: OfferedGroup(choices, persona, g))
            && NamesOf(groups) == Names(Offered(choices, persona))
  {
  }

  // The layers each persona gets, in their order.
  function LayersInOrder(repo: Repository, persona: string): seq<string> {
    repo.base
    + (if persona == "minimal" || persona == "server" then [] else repo.desktop + repo.general)
    + (if persona == "general" then [] else if persona in repo.layers then repo.layers[persona] else [])
  }

  // Every package of the plan in its order: the persona's layers, then group by group the package of
  // each selected identifier's choice, each package where it comes first.
  lemma PlanInOrder(repo: Repository, persona: string, requested: map<string, seq<string>>)
    returns (chosen: seq<string>)
    requires Resolve(repo, persona, requested).Ok?
    ensures var plan := Resolve(repo, persona, requested).value;
            && Sells(repo.choices, persona, Pairs(Names(Offered(repo.choices, persona)), plan.selections), chosen)
            && plan.packages == Unique(LayersInOrder(repo, persona) + chosen)
  {
    var groups := Grouped(Offered(repo.choices, persona));
    GroupsAreNamedApart(Offered(repo.choices, persona));
    GroupsAreOffered(repo.choices, persona);
    PickedSells(repo.choices, groups, persona, requested);
    chosen := PickAll(groups, persona, requested).value.packages;
    assert Layers(repo, persona) == LayersInOrder(repo, persona);
  }

  lemma {:induction false} PairsHold(names: seq<string>, selections: map<string, seq<string>>, n: string, id: string)
    ensures (n, id) in Pairs(names, selections) <==> n in names && n in selections && id in selections[n]
  {
    if names != [] {
      var init, last := names[..|names| - 1], names[|names| - 1];
      PairsHold(init, selections, n, id);
      assert names == init + [last];
      if last in selections {
        PairsOfHold(last, selections[last], n, id);
      }
    }
  }

  lemma PairsOfHold(group: string, identifiers: seq<string>, n: string, id: string)
    ensures (n, id) in PairsOf(group, identifiers) <==> n == group && id in identifiers
  {
    if n == group && id in identifiers {
      var k :| 0 <= k < |identifiers| && identifiers[k] == id;
      assert PairsOf(group, identifiers)[k] == (n, id);
    }
  }

  // -- which packages are installed --------------------------------------------------

  // The choice is offered to the persona and selected.
  ghost predicate Selects(selections: map<string, seq<string>>, choices: seq<Choice>, persona: string, i: nat) {
    && i < |choices| && Latest(choices, persona, choices[i].group, choices[i].identifier, i)
    && choices[i].group in selections && choices[i].identifier in selections[choices[i].group]
  }

  // A selected choice has this package.
  ghost predicate Chosen(selections: map<string, seq<string>>, choices: seq<Choice>, persona: string, p: string) {
    exists i: nat :: Selects(selections, choices, persona, i) && choices[i].package == p
  }

  // One from the AUR does.
  ghost predicate ChosenFromAur(
    selections: map<string, seq<string>>, choices: seq<Choice>, persona: string, p: string)
  {
    exists i: nat :: Selects(selections, choices, persona, i) && choices[i].source == Aur && choices[i].package == p
  }

  lemma SoldIsChosen(
      choices: seq<Choice>, persona: string, selections: map<string, seq<string>>, n: string, id: string, p: string)
    requires n in selections && id in selections[n] && Sold(choices, persona, (n, id), p)
    ensures Chosen(selections, choices, persona, p)
  {
    var i: nat :| Latest(choices, persona, n, id, i) && choices[i].package == p;
    assert Selects(selections, choices, persona, i);
  }

  lemma ChosenIff(
      choices: seq<Choice>, persona: string, names: seq<string>, selections: map<string, seq<string>>,
      chosen: seq<string>, p: string)
    requires Sells(choices, persona, Pairs(names, selections), chosen)
    requires forall n <- selections :: n in names
    ensures p in chosen <==> Chosen(selections, choices, persona, p)
  {
    var pairs := Pairs(names, selections);
    if p in chosen {
      var k :| 0 <= k < |chosen| && chosen[k] == p;
      var n, id := pairs[k].0, pairs[k].1;
      assert (n, id) in pairs;
      PairsHold(names, selections, n, id);
      SoldIsChosen(choices, persona, selections, n, id, p);
    }
    if Chosen(selections, choices, persona, p) {
      var i: nat :| Selects(selections, choices, persona, i) && choices[i].package == p;
      PairsHold(names, selections, choices[i].group, choices[i].identifier);
      var k :| 0 <= k < |pairs| && pairs[k] == (choices[i].group, choices[i].identifier);
      assert Sold(choices, persona, pairs[k], chosen[k]);
      OneIsSold(choices, persona, pairs[k], chosen[k], i);
    }
  }

  lemma OneIsSold(choices: seq<Choice>, persona: string, pair: (string, string), package: string, i: nat)
    requires Sold(choices, persona, pair, package) && Latest(choices, persona, pair.0, pair.1, i)
    ensures choices[i].package == package
  {
    var j: nat :| Latest(choices, persona, pair.0, pair.1, j) && choices[j].package == package;
  }

  lemma SelectionsHold(repo: Repository, persona: string, requested: map<string, seq<string>>)
    requires Resolve(repo, persona, requested).Ok?
    ensures var groups := Grouped(Offered(repo.choices, persona));
            var selections := Resolve(repo, persona, requested).value.selections;
            && Holds(selections, groups, persona, requested)
            && forall n :: n in selections <==> n in Names(Offered(repo.choices, persona))
  {
    var groups, names := Grouped(Offered(repo.choices, persona)), Names(Offered(repo.choices, persona));
    GroupsAreNamedApart(Offered(repo.choices, persona));
    PickedSelections(groups, persona, requested);
    NamedGroups(Offered(repo.choices, persona));
  }

  lemma NamedGroups(offered: seq<Choice>)
    ensures forall n :: n in GroupNames(Grouped(offered)) <==> n in Names(offered)
  {
    var groups, names := Grouped(offered), Names(offered);
    forall n ensures n in GroupNames(groups) <==> n in names {
      if n in names {
        var i :| 0 <= i < |names| && names[i] == n;
        assert groups[i] in groups && groups[i].name == n;
      }
      if n in GroupNames(groups) {
        var i :| 0 <= i < |groups| && groups[i].name == n;
        assert names[i] == n;
      }
    }
  }

  lemma PackagesIff(repo: Repository, persona: string, requested: map<string, seq<string>>, p: string)
    requires Resolve(repo, persona, requested).Ok?
    ensures var plan := Resolve(repo, persona, requested).value;
            p in plan.packages <==>
            p in LayersInOrder(repo, persona) || Chosen(plan.selections, repo.choices, persona, p)
  {
    var plan := Resolve(repo, persona, requested).value;
    SelectionsHold(repo, persona, requested);
    var chosen := PlanInOrder(repo, persona, requested);
    UniqueHolds(LayersInOrder(repo, persona) + chosen);
    ChosenIff(repo.choices, persona, Names(Offered(repo.choices, persona)), plan.selections, chosen, p);
  }

  // -- which come from the AUR ----------------------------------------------------------

  ghost predicate IsAurOf(g: Group, id: string, p: string) {
    var found := Find(g.choices, id);
    found.Some? && found.value.source == Aur && found.value.package == p
  }

  ghost predicate SoldFromAur(g: Group, identifiers: seq<string>, p: string) {
    exists id <- identifiers :: IsAurOf(g, id, p)
  }

  lemma {:induction false} AurPackagesOf(g: Group, identifiers: seq<string>, p: string)
    requires AllKnown(g, identifiers)
    ensures p in PackagesOf(g, identifiers, true) <==> SoldFromAur(g, identifiers, p)
  {
    if identifiers != [] {
      var init, last := identifiers[..|identifiers| - 1], identifiers[|identifiers| - 1];
      AurPackagesOf(g, init, p);
      assert identifiers == init + [last] && last in identifiers;
      assert p in PackagesOf(g, identifiers, true) <==> p in PackagesOf(g, init, true) || IsAurOf(g, last, p);
    }
  }

  ghost predicate SomeSellFromAur(groups: seq<Group>, persona: string, requested: map<string, seq<string>>, p: string) {
    exists g <- groups :: SoldFromAur(g, Asked(g, persona, requested), p)
  }

  lemma SomeSellNext(
      init: seq<Group>, last: Group, groups: seq<Group>, persona: string, requested: map<string, seq<string>>,
      p: string)
    requires groups == init + [last]
    ensures SomeSellFromAur(groups, persona, requested, p) <==>
            SomeSellFromAur(init, persona, requested, p) || SoldFromAur(last, Asked(last, persona, requested), p)
  {
    assert last in groups && forall g <- init :: g in groups;
  }

  lemma PickNext(groups: seq<Group>, persona: string, requested: map<string, seq<string>>, p: string)
    requires groups != [] && PickAll(groups, persona, requested).Ok?
    ensures var init, last := PickAll(groups[..|groups| - 1], persona, requested), groups[|groups| - 1];
            && init.Ok? && AllKnown(last, Asked(last, persona, requested))
            && (p in PickAll(groups, persona, requested).value.aur <==>
                p in init.value.aur || p in PackagesOf(last, Asked(last, persona, requested), true))
  {
    var init, last := PickAll(groups[..|groups| - 1], persona, requested), groups[|groups| - 1];
    var ids := Asked(last, persona, requested);
    assert PickAll(groups, persona, requested).value.aur == init.value.aur + PackagesOf(last, ids, true);
  }

  lemma {:induction false} PickedFromAur(
      groups: seq<Group>, persona: string, requested: map<string, seq<string>>, p: string)
    requires PickAll(groups, persona, requested).Ok?
    ensures p in PickAll(groups, persona, requested).value.aur <==> SomeSellFromAur(groups, persona, requested, p)
    decreases |groups|
  {
    if groups != [] {
      var init, last := groups[..|groups| - 1], groups[|groups| - 1];
      assert groups == init + [last];
      PickNext(groups, persona, requested, p);
      PickedFromAur(init, persona, requested, p);
      AurPackagesOf(last, Asked(last, persona, requested), p);
      SomeSellNext(init, last, groups, persona, requested, p);
    }
  }

  lemma AurIsChosen(
      choices: seq<Choice>, persona: string, selections: map<string, seq<string>>, g: Group, p: string)
    requires OfferedGroup(choices, persona, g) && g.name in selections && SoldFromAur(g, selections[g.name], p)
    ensures ChosenFromAur(selections, choices, persona, p)
  {
    var id :| id in selections[g.name] && IsAurOf(g, id, p);
    FindIsLatest(choices, persona, g.name, id);
    var i: nat :| Latest(choices, persona, g.name, id, i) && choices[i] == Find(g.choices, id).value;
    assert Selects(selections, choices, persona, i);
  }

  lemma ChosenIsAur(
      choices: seq<Choice>, persona: string, selections: map<string, seq<string>>, g: Group, i: nat, p: string)
    requires OfferedGroup(choices, persona, g) && Selects(selections, choices, persona, i) && g.name == choices[i].group
    requires choices[i].source == Aur && choices[i].package == p
    ensures SoldFromAur(g, selections[g.name], p)
  {
    FindIsLatest(choices, persona, g.name, choices[i].identifier);
    assert IsAurOf(g, choices[i].identifier, p);
  }

  lemma AurPackagesIff(repo: Repository, persona: string, requested: map<string, seq<string>>, p: string)
    requires Resolve(repo, persona, requested).Ok?
    ensures var plan := Resolve(repo, persona, requested).value;
            p in plan.aurPackages <==> ChosenFromAur(plan.selections, repo.choices, persona, p)
  {
    var groups := Grouped(Offered(repo.choices, persona));
    var picked := PickAll(groups, persona, requested).value;
    var selections := picked.selections;
    SelectionsHold(repo, persona, requested);
    GroupsAreOffered(repo.choices, persona);
    UniqueHolds(picked.aur);
    PickedFromAur(groups, persona, requested, p);
    if SomeSellFromAur(groups, persona, requested, p) {
      var g :| g in groups && SoldFromAur(g, Asked(g, persona, requested), p);
      AurIsChosen(repo.choices, persona, selections, g, p);
    }
    if ChosenFromAur(selections, repo.choices, persona, p) {
      var i: nat :| && Selects(selections, repo.choices, persona, i)
                    && repo.choices[i].source == Aur && repo.choices[i].package == p;
      var g :| g in groups && g.name == repo.choices[i].group;
      ChosenIsAur(repo.choices, persona, selections, g, i, p);
    }
  }

  // Exactly what a plan installs: the layers and the packages of the selected choices; exactly what of
  // it comes from the AUR; and when it needs multilib.
  lemma PlanInstalls(repo: Repository, persona: string, requested: map<string, seq<string>>)
    requires Resolve(repo, persona, requested).Ok?
    ensures var plan := Resolve(repo, persona, requested).value;
            && plan.persona == persona
            && (forall p :: p in plan.packages <==>
                  p in LayersInOrder(repo, persona) || Chosen(plan.selections, repo.choices, persona, p))
            && (forall p :: p in plan.aurPackages <==> ChosenFromAur(plan.selections, repo.choices, persona, p))
            && (plan.multilib <==> exists p <- plan.packages :: p == "steam" || (|p| >= 6 && p[..6] == "lib32-"))
  {
    var plan := Resolve(repo, persona, requested).value;
    forall p
      ensures p in plan.packages <==>
              p in LayersInOrder(repo, persona) || Chosen(plan.selections, repo.choices, persona, p)
    {
      PackagesIff(repo, persona, requested, p);
    }
    forall p ensures p in plan.aurPackages <==> ChosenFromAur(plan.selections, repo.choices, persona, p) {
      AurPackagesIff(repo, persona, requested, p);
    }
    MultilibIs(plan.packages);
  }

  lemma MultilibIs(packages: seq<string>)
    ensures NeedsMultilib(packages) <==> exists p <- packages :: p == "steam" || (|p| >= 6 && p[..6] == "lib32-")
  {
  }

  // -- which identifiers are selected ----------------------------------------------------

  lemma {:induction false} OfferedHold(choices: seq<Choice>, persona: string)
    ensures forall c :: c in Offered(choices, persona) <==> c in choices && persona in c.profiles
  {
    if choices != [] {
      OfferedHold(choices[..|choices| - 1], persona);
      assert choices == choices[..|choices| - 1] + [choices[|choices| - 1]];
    }
  }

  lemma {:induction false} OfHold(choices: seq<Choice>, name: string)
    ensures forall c :: c in Of(choices, name) <==> c in choices && c.group == name
  {
    if choices != [] {
      OfHold(choices[..|choices| - 1], name);
      assert choices == choices[..|choices| - 1] + [choices[|choices| - 1]];
    }
  }

  lemma {:induction false} DefaultsHold(choices: seq<Choice>, persona: string, id: string)
    ensures id in Defaults(choices, persona) <==>
            exists c <- choices :: persona in c.defaultProfiles && c.identifier == id
  {
    if choices != [] {
      var init, last := choices[..|choices| - 1], choices[|choices| - 1];
      DefaultsHold(init, persona, id);
      assert choices == init + [last];
    }
  }

  ghost predicate OfferedName(choices: seq<Choice>, persona: string, name: string) {
    exists c <- choices :: persona in c.profiles && c.group == name
  }

  ghost predicate DefaultIn(choices: seq<Choice>, persona: string, name: string, id: string) {
    exists c <- choices :: Matches(c, persona, name, id) && persona in c.defaultProfiles
  }

  lemma NamesOffered(choices: seq<Choice>, persona: string, name: string)
    ensures name in Names(Offered(choices, persona)) <==> OfferedName(choices, persona, name)
  {
    NamesHold(Offered(choices, persona));
    OfferedHold(choices, persona);
  }

  lemma DefaultsAre(choices: seq<Choice>, persona: string, name: string, id: string)
    ensures id in Defaults(Of(Offered(choices, persona), name), persona) <==> DefaultIn(choices, persona, name, id)
  {
    OfferedHold(choices, persona);
    OfHold(Offered(choices, persona), name);
    DefaultsHold(Of(Offered(choices, persona), name), persona, id);
  }

  // Exactly what is selected: in every group offered to the persona, what was asked of it, in that
  // order, or else the identifiers of its choices that are the persona's defaults; none twice.
  lemma SelectionsAre(repo: Repository, persona: string, requested: map<string, seq<string>>, name: string)
    requires Resolve(repo, persona, requested).Ok?
    ensures var selections := Resolve(repo, persona, requested).value.selections;
            && (name in selections <==> OfferedName(repo.choices, persona, name))
            && (name in selections ==>
                  && (forall i, j | 0 <= i < j < |selections[name]| :: selections[name][i] != selections[name][j])
                  && (name in requested ==> selections[name] == Unique(requested[name]))
                  && (name !in requested ==>
                        forall id :: id in selections[name] <==> DefaultIn(repo.choices, persona, name, id)))
  {
    SelectionsHold(repo, persona, requested);
    NamesOffered(repo.choices, persona, name);
    var selections := Resolve(repo, persona, requested).value.selections;
    if name in selections {
      var g :| g in Grouped(Offered(repo.choices, persona)) && g.name == name;
      GroupsAreOffered(repo.choices, persona);
      AskedIs(repo.choices, persona, requested, g);
    }
  }

  lemma AskedIs(choices: seq<Choice>, persona: string, requested: map<string, seq<string>>, g: Group)
    requires OfferedGroup(choices, persona, g)
    ensures var ids := Asked(g, persona, requested);
            && (forall i, j | 0 <= i < j < |ids| :: ids[i] != ids[j])
            && (g.name in requested ==> ids == Unique(requested[g.name]))
            && (g.name !in requested ==> forall id :: id in ids <==> DefaultIn(choices, persona, g.name, id))
  {
    UniqueHolds(if g.name in requested then requested[g.name] else Defaults(g.choices, persona));
    forall id ensures id in Defaults(g.choices, persona) <==> DefaultIn(choices, persona, g.name, id) {
      DefaultsAre(choices, persona, g.name, id);
    }
  }

  // -- how many a group takes -----------------------------------------------------------------

  ghost predicate Earliest(choices: seq<Choice>, persona: string, group: string, i: nat) {
    && i < |choices| && persona in choices[i].profiles && choices[i].group == group
    && forall j | 0 <= j < i :: !(persona in choices[j].profiles && choices[j].group == group)
  }

  lemma {:induction false} FirstOffered(choices: seq<Choice>, persona: string, group: string)
    ensures var offered := Of(Offered(choices, persona), group);
            if offered == [] then forall c <- choices :: !(persona in c.profiles && c.group == group)
            else exists i: nat :: Earliest(choices, persona, group, i) && choices[i] == offered[0]
  {
    if choices != [] {
      var n := |choices| - 1;
      var init := choices[..n];
      var before := Of(Offered(init, persona), group);
      FirstOffered(init, persona, group);
      OfOffered(choices, persona, group);
      if before != [] {
        var i: nat :| Earliest(init, persona, group, i) && init[i] == before[0];
        assert Earliest(choices, persona, group, i) && choices[i] == before[0];
      } else if persona in choices[n].profiles && choices[n].group == group {
        assert forall j | 0 <= j < n :: choices[j] == init[j] && init[j] in init;
        assert Earliest(choices, persona, group, n);
      }
    }
  }

  // A group takes as many as the first of its choices offered to the persona says.
  lemma GroupTakesAsItsFirst(choices: seq<Choice>, persona: string, g: Group)
    requires g in Grouped(Offered(choices, persona))
    ensures exists i: nat :: Earliest(choices, persona, g.name, i) && choices[i].selection == g.selection
  {
    var offered := Offered(choices, persona);
    NamesHold(offered);
    assert g == GroupOf(offered, g.name);
    FirstOffered(choices, persona, g.name);
  }

  // -- which requests resolve -----------------------------------------------------------------

  // A group's selection has the right number of identifiers, all of them offered and none planned for later.
  ghost predicate Sound(g: Group, identifiers: seq<string>) {
    && (g.selection == OneOf ==> |identifiers| == 1)
    && (g.selection == Optional ==> |identifiers| <= 1)
    && (forall id <- identifiers :: Find(g.choices, id).Some? && Find(g.choices, id).value.source != Future)
  }

  lemma PickIff(g: Group, persona: string, requested: map<string, seq<string>>)
    ensures Pick(g, persona, requested).Ok? <==> Sound(g, Asked(g, persona, requested))
  {
  }

  ghost predicate AllSound(groups: seq<Group>, persona: string, requested: map<string, seq<string>>) {
    forall g <- groups :: Sound(g, Asked(g, persona, requested))
  }

  lemma AllSoundNext(init: seq<Group>, last: Group, groups: seq<Group>, persona: string,
                     requested: map<string, seq<string>>)
    requires groups == init + [last]
    ensures AllSound(groups, persona, requested) <==>
            AllSound(init, persona, requested) && Sound(last, Asked(last, persona, requested))
  {
    assert last in groups && forall g <- init :: g in groups;
  }

  lemma {:induction false} PicksIff(groups: seq<Group>, persona: string, requested: map<string, seq<string>>)
    ensures PickAll(groups, persona, requested).Ok? <==> AllSound(groups, persona, requested)
    decreases |groups|
  {
    if groups != [] {
      var init, last := groups[..|groups| - 1], groups[|groups| - 1];
      PicksIff(init, persona, requested);
      PickIff(last, persona, requested);
      AllSoundNext(init, last, groups, persona, requested);
    }
  }

  // A request resolves exactly when the persona is known, it names only groups offered to it, and the
  // selection of every offered group is sound.
  lemma ResolvesIff(repo: Repository, persona: string, requested: map<string, seq<string>>)
    ensures Resolve(repo, persona, requested).Ok? <==>
            && (persona == "general" || persona == "gamer" || persona == "developer" || persona == "server"
                || persona == "minimal")
            && (forall n <- requested :: OfferedName(repo.choices, persona, n))
            && AllSound(Grouped(Offered(repo.choices, persona)), persona, requested)
  {
    PicksIff(Grouped(Offered(repo.choices, persona)), persona, requested);
    AskedOfOffered(repo.choices, persona, requested);
  }

  lemma AskedOfOffered(choices: seq<Choice>, persona: string, requested: map<string, seq<string>>)
    ensures requested.Keys <= GroupNames(Grouped(Offered(choices, persona))) <==>
            forall n <- requested :: OfferedName(choices, persona, n)
  {
    var offered := Offered(choices, persona);
    NamedGroups(offered);
    forall n ensures n in GroupNames(Grouped(offered)) <==> OfferedName(choices, persona, n) {
      NamesOffered(choices, persona, n);
    }
  }
}
