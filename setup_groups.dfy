/** The `setup_groups` management command: for each configured group,
    `get_or_create` it, clear its permissions and add each configured
    codename that exists for the Book model, reporting as it goes. */
module SetupGroups {

  /** A permission row: its content type (app label and model) and codename. */
  datatype Permission = Permission(appLabel: string, model: string, codename: string)

  /** A Book permission with the given codename. */
  function BookPermission(codename: string): Permission {
    Permission("bookshelf", "book", codename)
  }

  /** `groups_config`, in the dictionary's insertion order. */
  const GroupsConfig: seq<(string, seq<string>)> := [
    ("Viewers", ["can_view"]),
    ("Editors", ["can_view", "can_create", "can_edit"]),
    ("Admins", ["can_view", "can_create", "can_edit", "can_delete"])
  ]

  const ConfiguredGroups: set<string> := {"Viewers", "Editors", "Admins"}

  /** The codenames configured for a group (none for other groups). */
  function ConfigOf(group: string): seq<string> {
    if group == "Viewers" then GroupsConfig[0].1
    else if group == "Editors" then GroupsConfig[1].1
    else if group == "Admins" then GroupsConfig[2].1
    else []
  }

  /** What a group holds after its turn: exactly the configured codenames
      that exist as Book permissions. */
  function Granted(codenames: seq<string>, table: set<Permission>): (r: set<Permission>)
    ensures forall p :: p in r <==>
              (p in table && p.appLabel == "bookshelf" && p.model == "book" && p.codename in codenames)
  {
    set c | c in codenames && BookPermission(c) in table :: BookPermission(c)
  }

  /** Granting one more codename adds its permission when it exists. */
  lemma GrantedSnoc(codenames: seq<string>, c: string, table: set<Permission>)
    ensures Granted(codenames + [c], table)
         == Granted(codenames, table) + (if BookPermission(c) in table then {BookPermission(c)} else {})
  {
  }

  /** The group table `handle` leaves behind. */
  function Configured(groups: map<string, set<Permission>>, table: set<Permission>): (r: map<string, set<Permission>>)
    ensures r.Keys == groups.Keys + ConfiguredGroups
  {
    map g | g in groups.Keys + ConfiguredGroups ::
      if g in ConfiguredGroups then Granted(ConfigOf(g), table) else groups[g]
  }

  /** `Configured` is the only table that keeps every existing group, adds
      the configured ones, gives each configured group its grant and leaves
      every other group as it was. */
  lemma ConfiguredCharacterized(result: map<string, set<Permission>>, groups: map<string, set<Permission>>, table: set<Permission>)
    requires result.Keys == groups.Keys + ConfiguredGroups
    requires forall g :: g in result ==>
               result[g] == if g in ConfiguredGroups then Granted(ConfigOf(g), table) else groups[g]
    ensures result == Configured(groups, table)
  {
  }

  /** Running the command twice leaves what running it once leaves. */
  lemma ConfiguredIdempotent(groups: map<string, set<Permission>>, table: set<Permission>)
    ensures Configured(Configured(groups, table), table) == Configured(groups, table)
  {
  }

  /** Configured groups hold exactly their grant; every other group keeps
      its permissions; no group is lost. */
  lemma ConfiguredExact(groups: map<string, set<Permission>>, table: set<Permission>, g: string)
    ensures g in groups ==> g in Configured(groups, table)
    ensures g in ConfiguredGroups ==> Configured(groups, table)[g] == Granted(ConfigOf(g), table)
    ensures g in groups && g !in ConfiguredGroups ==> Configured(groups, table)[g] == groups[g]
  {
  }

  /** Viewers ⊆ Editors ⊆ Admins, and only Admins may delete. */
  lemma GrantsNested(table: set<Permission>)
    ensures Granted(ConfigOf("Viewers"), table) <= Granted(ConfigOf("Editors"), table)
    ensures Granted(ConfigOf("Editors"), table) <= Granted(ConfigOf("Admins"), table)
    ensures forall g :: BookPermission("can_delete") in Granted(ConfigOf(g), table) ==> g == "Admins"
  {
  }

  /** One line of the command's output. */
  datatype Report =
    | Added(codename: string, group: string)
    | NotFound(codename: string)
    | CreatedGroup(name: string)
    | UpdatedGroup(name: string)
    | Finished

  /** The lines `handle` prints while granting `codenames` to a group. */
  function GrantLog(name: string, codenames: seq<string>, table: set<Permission>): seq<Report>
  {
    if codenames == [] then []
    else
      var c := codenames[|codenames| - 1];
      GrantLog(name, codenames[..|codenames| - 1], table)
        + [if BookPermission(c) in table then Added(c, name) else NotFound(c)]
  }

  /** The lines printed for one configured group. */
  function GroupLog(name: string, codenames: seq<string>, existed: bool, table: set<Permission>): seq<Report>
  {
    GrantLog(name, codenames, table) + [if existed then UpdatedGroup(name) else CreatedGroup(name)]
  }

  /** The lines printed for the first `i` configured groups. */
  function LogBefore(i: nat, groups: map<string, set<Permission>>, table: set<Permission>): seq<Report>
    requires i <= |GroupsConfig|
  {
    if i == 0 then []
    else LogBefore(i - 1, groups, table) + GroupLog(GroupsConfig[i - 1].0, GroupsConfig[i - 1].1, GroupsConfig[i - 1].0 in groups, table)
  }

  lemma LogBeforeStep(i: nat, groups: map<string, set<Permission>>, table: set<Permission>)
    requires i < |GroupsConfig|
    ensures LogBefore(i + 1, groups, table)
         == LogBefore(i, groups, table) + GroupLog(GroupsConfig[i].0, GroupsConfig[i].1, GroupsConfig[i].0 in groups, table)
  {
  }

  /** Everything `handle` prints, given the groups it starts from. */
  function HandleLog(groups: map<string, set<Permission>>, table: set<Permission>): seq<Report>
  {
    LogBefore(|GroupsConfig|, groups, table) + [Finished]
  }

  /** Granting reports each codename once: added if it exists, not found otherwise. */
  lemma {:induction false} GrantLogReports(name: string, codenames: seq<string>, table: set<Permission>)
    ensures forall c, g :: Added(c, g) in GrantLog(name, codenames, table) <==>
              g == name && c in codenames && BookPermission(c) in table
    ensures forall c :: NotFound(c) in GrantLog(name, codenames, table) <==>
              c in codenames && BookPermission(c) !in table
    ensures forall r :: r in GrantLog(name, codenames, table) ==> r.Added? || r.NotFound?
  {
    if codenames != [] {
      var init := codenames[..|codenames| - 1];
      GrantLogReports(name, init, table);
      assert codenames == init + [codenames[|codenames| - 1]];
    }
  }

  /** The lines printed for one group: its grant report, then whether it
      was created or updated. */
  lemma GroupLogReports(name: string, codenames: seq<string>, existed: bool, table: set<Permission>)
    ensures forall c, g :: Added(c, g) in GroupLog(name, codenames, existed, table) <==>
              g == name && c in codenames && BookPermission(c) in table
    ensures forall c :: NotFound(c) in GroupLog(name, codenames, existed, table) <==>
              c in codenames && BookPermission(c) !in table
    ensures forall g :: CreatedGroup(g) in GroupLog(name, codenames, existed, table) <==> g == name && !existed
    ensures forall g :: UpdatedGroup(g) in GroupLog(name, codenames, existed, table) <==> g == name && existed
    ensures Finished !in GroupLog(name, codenames, existed, table)
  {
    GrantLogReports(name, codenames, table);
  }

  /** What the first `i` groups' lines report. */
  lemma NamesBeforeStep(i: nat)
    requires i < |GroupsConfig|
    ensures NamesBefore(i + 1) == NamesBefore(i) + {GroupsConfig[i].0}
    ensures GroupsConfig[i].1 == ConfigOf(GroupsConfig[i].0)
  {
  }

  /** Which groups the first `i` groups' lines report created or updated. */
  lemma {:induction false} LogBeforeGroupReports(i: nat, groups: map<string, set<Permission>>, table: set<Permission>)
    requires i <= |GroupsConfig|
    ensures forall g :: CreatedGroup(g) in LogBefore(i, groups, table) <==> g in NamesBefore(i) && g !in groups
    ensures forall g :: UpdatedGroup(g) in LogBefore(i, groups, table) <==> g in NamesBefore(i) && g in groups
    ensures Finished !in LogBefore(i, groups, table)
  {
    if i > 0 {
      LogBeforeGroupReports(i - 1, groups, table);
      LogBeforeStep(i - 1, groups, table);
      NamesBeforeStep(i - 1);
      var name := GroupsConfig[i - 1].0;
      GroupLogReports(name, GroupsConfig[i - 1].1, name in groups, table);
    }
  }

  /** Which permissions the first `i` groups' lines report added or not found. */
  lemma {:induction false} LogBeforePermissionReports(i: nat, groups: map<string, set<Permission>>, table: set<Permission>)
    requires i <= |GroupsConfig|
    ensures forall c, g :: Added(c, g) in LogBefore(i, groups, table) <==>
              g in NamesBefore(i) && c in ConfigOf(g) && BookPermission(c) in table
    ensures forall c :: NotFound(c) in LogBefore(i, groups, table) <==>
              (exists g :: g in NamesBefore(i) && c in ConfigOf(g)) && BookPermission(c) !in table
  {
    if i > 0 {
      LogBeforePermissionReports(i - 1, groups, table);
      LogBeforeStep(i - 1, groups, table);
      NamesBeforeStep(i - 1);
      var name := GroupsConfig[i - 1].0;
      GroupLogReports(name, GroupsConfig[i - 1].1, name in groups, table);
    }
  }

  /** The three configured groups, and nothing else, are the ones `handle` visits. */
  lemma AllNames()
    ensures NamesBefore(|GroupsConfig|) == ConfiguredGroups
  {
    assert GroupsConfig[0].0 in NamesBefore(3) && GroupsConfig[1].0 in NamesBefore(3)
        && GroupsConfig[2].0 in NamesBefore(3);
  }

  /** Every configured codename is one of the Admins' codenames. */
  lemma AdminsHoldEveryCodename(c: string)
    ensures (exists g :: g in ConfiguredGroups && c in ConfigOf(g)) <==> c in ConfigOf("Admins")
  {
    assert "Admins" in ConfiguredGroups;
  }

  /** Each configured group is reported created exactly when it did not
      exist, updated exactly when it did; every existing configured
      codename is reported added to each group configured with it, every
      missing one reported not found; the last line is the summary. */
  lemma HandleLogReports(groups: map<string, set<Permission>>, table: set<Permission>)
    ensures forall g :: CreatedGroup(g) in HandleLog(groups, table) <==> g in ConfiguredGroups && g !in groups
    ensures forall g :: UpdatedGroup(g) in HandleLog(groups, table) <==> g in ConfiguredGroups && g in groups
    ensures forall c, g :: Added(c, g) in HandleLog(groups, table) <==>
              g in ConfiguredGroups && c in ConfigOf(g) && BookPermission(c) in table
    ensures forall c :: NotFound(c) in HandleLog(groups, table) <==>
              c in ConfigOf("Admins") && BookPermission(c) !in table
    ensures HandleLog(groups, table)[|HandleLog(groups, table)| - 1] == Finished
  {
    LogBeforeGroupReports(|GroupsConfig|, groups, table);
    LogBeforePermissionReports(|GroupsConfig|, groups, table);
    AllNames();
    forall c
      ensures (exists g :: g in ConfiguredGroups && c in ConfigOf(g)) <==> c in ConfigOf("Admins")
    {
      AdminsHoldEveryCodename(c);
    }
  }

  /** The names of the first `i` configured groups. */
  function NamesBefore(i: nat): set<string>
    requires i <= |GroupsConfig|
  {
    set k | 0 <= k < i :: GroupsConfig[k].0
  }

  /** The group table after the first `i` turns of the loop in `handle`,
      started from `groups`. */
  ghost predicate ConfiguredUpTo(current: map<string, set<Permission>>, groups: map<string, set<Permission>>,
                                 i: nat, table: set<Permission>)
    requires i <= |GroupsConfig|
  {
    && current.Keys == groups.Keys + NamesBefore(i)
    && forall g :: g in current ==>
         current[g] == if g in NamesBefore(i) then Granted(ConfigOf(g), table) else groups[g]
  }

  /** One more turn configures the next group, which existed before the
      turn exactly when it existed at the start. */
  lemma ConfiguredStep(current: map<string, set<Permission>>, groups: map<string, set<Permission>>,
                       i: nat, table: set<Permission>)
    requires i < |GroupsConfig| && ConfiguredUpTo(current, groups, i, table)
    ensures var name := GroupsConfig[i].0;
            && (name in current <==> name in groups)
            && GroupsConfig[i].1 == ConfigOf(name)
            && ConfiguredUpTo(current[name := Granted(ConfigOf(name), table)], groups, i + 1, table)
  {
    var name := GroupsConfig[i].0;
    assert NamesBefore(i + 1) == NamesBefore(i) + {name};
    assert name !in NamesBefore(i);
  }

  /** After the last turn the table is `Configured`. */
  lemma ConfiguredAtEnd(current: map<string, set<Permission>>, groups: map<string, set<Permission>>,
                        table: set<Permission>)
    requires ConfiguredUpTo(current, groups, |GroupsConfig|, table)
    ensures current == Configured(groups, table)
  {
    AllNames();
    ConfiguredCharacterized(current, groups, table);
  }

  /** The `Group` and `Permission` tables the command works on. */
  class GroupStore {
    var groups: map<string, set<Permission>>
    var permissions: set<Permission>

    constructor (groups: map<string, set<Permission>>, permissions: set<Permission>)
      ensures this.groups == groups && this.permissions == permissions
    {
      this.groups := groups;
      this.permissions := permissions;
    }

    /** `Group.objects.get_or_create(name=...)`: never a second group of a name. */
    method GetOrCreate(name: string) returns (created: bool)
      modifies this
      ensures created <==> name !in old(groups)
      ensures groups == if created then old(groups)[name := {}] else old(groups)
      ensures permissions == old(permissions)
    {
      created := name !in groups;
      if created {
        groups := groups[name := {}];
      }
    }

    /** `group.permissions.clear()`. */
    method ClearPermissions(name: string)
      requires name in groups
      modifies this
      ensures groups == old(groups)[name := {}]
      ensures permissions == old(permissions)
    {
      groups := groups[name := {}];
    }

    /** `group.permissions.add(perm)`. */
    method AddPermission(name: string, p: Permission)
      requires name in groups
      modifies this
      ensures groups == old(groups)[name := old(groups)[name] + {p}]
      ensures permissions == old(permissions)
    {
      groups := groups[name := groups[name] + {p}];
    }

    /** One turn of the loop in `Command.handle`: clear the group, then add
        each configured codename that exists for Book, reporting each. */
    method GrantGroup(name: string, codenames: seq<string>) returns (entries: seq<Report>)
      requires name in groups
      modifies this
      ensures permissions == old(permissions)
      ensures groups == old(groups)[name := Granted(codenames, permissions)]
      ensures entries == GrantLog(name, codenames, permissions)
    {
      ClearPermissions(name);
      entries := [];
      assert Granted(codenames[..0], permissions) == {};
      for j := 0 to |codenames|
        invariant permissions == old(permissions)
        invariant groups == old(groups)[name := Granted(codenames[..j], permissions)]
        invariant entries == GrantLog(name, codenames[..j], permissions)
      {
        var codename := codenames[j];
        assert codenames[..j + 1] == codenames[..j] + [codename];
        assert codenames[..j + 1][..j] == codenames[..j];
        GrantedSnoc(codenames[..j], codename, permissions);
        var p := BookPermission(codename);
        if p in permissions {
          AddPermission(name, p);
          assert groups == old(groups)[name := Granted(codenames[..j + 1], permissions)];
          entries := entries + [Added(codename, name)];
        } else {
          assert Granted(codenames[..j + 1], permissions) == Granted(codenames[..j], permissions);
          entries := entries + [NotFound(codename)];
        }
      }
      assert codenames[..|codenames|] == codenames;
    }

    /** The body of the loop in `Command.handle` for one configured group. */
    method ConfigureGroup(name: string, codenames: seq<string>) returns (entries: seq<Report>)
      modifies this
      ensures permissions == old(permissions)
      ensures groups == old(groups)[name := Granted(codenames, permissions)]
      ensures entries == GroupLog(name, codenames, name in old(groups), permissions)
    {
      var created := GetOrCreate(name);
      entries := GrantGroup(name, codenames);
      if created {
        entries := entries + [CreatedGroup(name)];
      } else {
        entries := entries + [UpdatedGroup(name)];
      }
    }

    /** `Command.handle`: the configured groups end with exactly their
        grant, other groups are untouched, and the output is `HandleLog`. */
    method Handle() returns (log: seq<Report>)
      modifies this
      ensures permissions == old(permissions)
      ensures groups == Configured(old(groups), old(permissions))
      ensures log == HandleLog(old(groups), permissions)
    {
      log := [];
      assert ConfiguredUpTo(groups, old(groups), 0, permissions);
      for i := 0 to |GroupsConfig|
        invariant permissions == old(permissions)
        invariant ConfiguredUpTo(groups, old(groups), i, permissions)
        invariant log == LogBefore(i, old(groups), permissions)
      {
        ConfiguredStep(groups, old(groups), i, permissions);
        LogBeforeStep(i, old(groups), permissions);
        var entries := ConfigureGroup(GroupsConfig[i].0, GroupsConfig[i].1);
        log := log + entries;
      }
      log := log + [Finished];
      ConfiguredAtEnd(groups, old(groups), permissions);
    }
  }
}
