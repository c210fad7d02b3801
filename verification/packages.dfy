/** The optional-package installer (root.py, `available_packages`,
    `create_package_command` and the partition and command composition of
    `install_additional_packages`). */
module Packages {
  import opened Text

  datatype Option<T> = None | Some(value: T)

  /** An optional package: its npm name and, for some, a companion package
      (type declarations or a CLI) that belongs among the dev dependencies.
      The description shown in the menu is not modelled. */
  datatype Package = Package(name: string, companion: Option<string>)

  /** The packages offered, in menu order. */
  const Catalog: seq<Package> := [
    Package("react-icons", None),
    Package("axios", None),
    Package("next-auth", None),
    Package("zustand", None),
    Package("date-fns", None),
    Package("bcrypt", Some("@types/bcrypt")),
    Package("qrious", None),
    Package("react-confetti", None),
    Package("react-google-recaptcha-v3", Some("@types/react-google-recaptcha")),
    Package("@emotion/react", None),
    Package("@emotion/styled", None),
    Package("@mui/material", None),
    Package("@mui/x-date-pickers", None),
    Package("@prisma/client", Some("prisma"))
  ]

  /** Where the dictionary lookup `available_packages[name]` lands: the
      position of the first entry of `table` with that name, or `|table|` when
      there is none. */
  function Position(table: seq<Package>, name: string): (k: nat)
    ensures k <= |table|
    ensures k < |table| ==> table[k].name == name
    ensures forall j :: 0 <= j < k ==> table[j].name != name
  {
    if |table| == 0 then 0
    else if table[0].name == name then 0
    else 1 + Position(table[1..], name)
  }

  predicate IsListed(table: seq<Package>, name: string) {
    Position(table, name) < |table|
  }

  /** Only bcrypt, the reCAPTCHA binding and the Prisma client bring a
      companion. */
  lemma CatalogCompanions()
    ensures forall k :: 0 <= k < |Catalog| ==> (Catalog[k].companion.Some? <==> k in {5, 8, 13})
  {
  }

  /** Every selected name is in the table. */
  predicate AllListed(table: seq<Package>, selected: seq<string>) {
    forall k :: 0 <= k < |selected| ==> IsListed(table, selected[k])
  }

  /** The companion `table` records for `name`; none for a name outside the
      table (where Python's lookup raises `KeyError`, which the operations
      below rule out by their preconditions). */
  function Companion(table: seq<Package>, name: string): (c: Option<string>)
    ensures c.Some? ==> exists k | 0 <= k < |table| :: table[k].name == name && table[k].companion == c
    ensures forall k :: 0 <= k < |table| && table[k].name == name && (forall j :: 0 <= j < k ==> table[j].name != name) ==>
      c == table[k].companion
    ensures (forall k :: 0 <= k < |table| ==> table[k].name != name) ==> c.None?
  {
    var k := Position(table, name);
    if k < |table| then table[k].companion else None
  }

  /** Python's truth test on the recorded companion: `None` and the empty
      string both count as no companion. */
  predicate HasCompanion(table: seq<Package>, name: string) {
    Companion(table, name).Some? && Companion(table, name).value != ""
  }

  /** `f"{name}@latest"`: the version specifier every install uses. */
  function Latest(name: string): string {
    name + "@latest"
  }

  /** The dev-dependency flag of each package manager; none for a manager
      outside the four known ones. */
  function DevFlag(pm: string): string {
    if pm == "npm" then "--save-dev"
    else if pm == "yarn" then "-D"
    else if pm == "pnpm" then "-D"
    else if pm == "bun" then "-d"
    else ""
  }

  /** The install invocation of each manager, as words; a manager outside
      the three named ones installs with bun. */
  function InstallVerb(pm: string): (ws: seq<string>)
    ensures |ws| == 2
  {
    if pm == "npm" then ["npm", "install"]
    else if pm == "yarn" then ["yarn", "add"]
    else if pm == "pnpm" then ["pnpm", "add"]
    else ["bun", "add"]
  }

  /** `create_package_command`: the install prefix of `pm`, a space, then the
      dev flag when a dev install is asked for (and nothing otherwise). */
  function CreatePackageCommand(pm: string, devDependency: bool): (cmd: string)
    ensures Join(" ", InstallVerb(pm)) + " " <= cmd
    ensures cmd[|Join(" ", InstallVerb(pm))| + 1..] == if devDependency then DevFlag(pm) else ""
  {
    var devFlag := if devDependency then DevFlag(pm) else "";
    InstallPrefixText(pm);
    if pm == "npm" then "npm install " + devFlag
    else if pm == "yarn" then "yarn add " + devFlag
    else if pm == "pnpm" then "pnpm add " + devFlag
    else "bun add " + devFlag
  }

  /** The install invocation of each manager, joined by a space, is the text
      its install prefix starts with. */
  lemma InstallPrefixText(pm: string)
    ensures pm == "npm" ==> Join(" ", InstallVerb(pm)) + " " == "npm install "
    ensures pm == "yarn" ==> Join(" ", InstallVerb(pm)) + " " == "yarn add "
    ensures pm == "pnpm" ==> Join(" ", InstallVerb(pm)) + " " == "pnpm add "
    ensures pm != "npm" && pm != "yarn" && pm != "pnpm" ==> Join(" ", InstallVerb(pm)) + " " == "bun add "
  {
    var ws := InstallVerb(pm);
    JoinTwo(" ", ws[0], ws[1]);
    assert ws == [ws[0], ws[1]];
  }

  /** The dev flag as it appears on the command line: present only for a dev
      install under a manager that has one. */
  function DevFlagWords(pm: string, devDependency: bool): seq<string> {
    if devDependency && DevFlag(pm) != "" then [DevFlag(pm)] else []
  }

  /** Every install word is a single word, and so is a non-empty dev flag. */
  lemma InstallTablesAreWords(pm: string)
    ensures forall i :: 0 <= i < |InstallVerb(pm)| ==> IsWord(InstallVerb(pm)[i])
    ensures DevFlag(pm) != "" ==> IsWord(DevFlag(pm))
  {
  }

  /** A dev install differs from a regular one only by the dev flag
      appended to the prefix. */
  lemma DevInstallAddsFlag(pm: string)
    ensures CreatePackageCommand(pm, true) == CreatePackageCommand(pm, false) + DevFlag(pm)
    ensures DevFlag(pm) == "" <==> pm != "npm" && pm != "yarn" && pm != "pnpm" && pm != "bun"
  {
  }

  /** A manager outside the four known ones installs everything, dev
      companions included, with a flagless `bun add`. */
  lemma UnknownManagerDropsDevFlag(pm: string)
    requires pm != "npm" && pm != "yarn" && pm != "pnpm" && pm != "bun"
    ensures CreatePackageCommand(pm, true) == CreatePackageCommand(pm, false) == "bun add "
    ensures CreatePackageCommand("bun", true) == "bun add -d"
  {
  }

  /** The install invocation joined by spaces splits back into its words. */
  lemma InstallVerbWords(pm: string)
    ensures Words(Join(" ", InstallVerb(pm))) == InstallVerb(pm)
  {
    InstallTablesAreWords(pm);
    JoinSplitRoundTrip(InstallVerb(pm));
  }

  /** Split into words, the install prefix is the manager's install
      invocation followed by the dev flag, if any. */
  lemma PackageCommandWords(pm: string, devDependency: bool)
    ensures Words(CreatePackageCommand(pm, devDependency)) == InstallVerb(pm) + DevFlagWords(pm, devDependency)
  {
    var cmd := CreatePackageCommand(pm, devDependency);
    var verb := Join(" ", InstallVerb(pm));
    var flag := if devDependency then DevFlag(pm) else "";
    assert cmd == verb + " " + flag by {
      assert cmd == cmd[..|verb| + 1] + cmd[|verb| + 1..];
    }
    WordsAroundSpace(verb, flag);
    InstallVerbWords(pm);
    InstallTablesAreWords(pm);
    if flag != "" {
      WordsOfWord(flag);
    }
  }


  /** What one selected package adds to the dev-dependency list: its
      companion at the latest version, if it has one. */
  function DevEntry(table: seq<Package>, name: string): (entry: seq<string>)
    ensures |entry| <= 1
    ensures |entry| == 1 <==> HasCompanion(table, name)
  {
    if HasCompanion(table, name) then [Latest(Companion(table, name).value)] else []
  }

  /** The regular list: every selected package at its latest version. */
  function RegularList(selected: seq<string>): (regular: seq<string>)
    ensures |regular| == |selected|
    ensures forall k :: 0 <= k < |selected| ==> regular[k] == Latest(selected[k])
  {
    seq(|selected|, k requires 0 <= k < |selected| => Latest(selected[k]))
  }

  /** The dev-dependency list: the companions of the selected packages, in
      selection order. */
  function DevList(table: seq<Package>, selected: seq<string>): (dev: seq<string>)
    ensures |dev| <= |selected|
  {
    if |selected| == 0 then []
    else DevEntry(table, selected[0]) + DevList(table, selected[1..])
  }

  /** The first selected package's entries come first. */
  lemma DevListCons(table: seq<Package>, selected: seq<string>)
    requires |selected| > 0
    ensures DevList(table, selected) == DevEntry(table, selected[0]) + DevList(table, selected[1..])
  {
  }

  /** The dev list of a concatenation is the concatenation of the dev lists:
      selection order is kept. */
  lemma {:induction false} DevListAppend(table: seq<Package>, a: seq<string>, b: seq<string>)
    ensures DevList(table, a + b) == DevList(table, a) + DevList(table, b)
  {
    if |a| > 0 {
      DevListCons(table, a);
      DevListCons(table, a + b);
      assert (a + b)[0] == a[0];
      assert (a + b)[1..] == a[1..] + b;
      DevListAppend(table, a[1..], b);
    } else {
      assert a + b == b;
    }
  }

  /** The dev list is empty exactly when no selected package has a companion. */
  lemma {:induction false} DevListEmpty(table: seq<Package>, selected: seq<string>)
    ensures DevList(table, selected) == [] <==>
      forall k :: 0 <= k < |selected| ==> !HasCompanion(table, selected[k])
  {
    if |selected| > 0 {
      DevListCons(table, selected);
      DevListEmpty(table, selected[1..]);
      if DevList(table, selected) == [] {
        forall k | 0 <= k < |selected| ensures !HasCompanion(table, selected[k]) {
          if k > 0 {
            assert selected[k] == selected[1..][k - 1];
          }
        }
      } else if DevEntry(table, selected[0]) == [] {
        var k :| 0 <= k < |selected[1..]| && HasCompanion(table, selected[1..][k]);
        assert selected[1..][k] == selected[k + 1];
      }
    }
  }

  /** `entry` is the latest version of the companion of `name`. */
  predicate CompanionEntry(table: seq<Package>, name: string, entry: string)
  {
    HasCompanion(table, name) && entry == Latest(Companion(table, name).value)
  }

  /** Every dev entry is the latest version of the companion of some selected
      package; `k` names one. */
  lemma {:induction false} DevEntryOrigin(table: seq<Package>, selected: seq<string>, m: int) returns (k: int)
    requires 0 <= m < |DevList(table, selected)|
    ensures 0 <= k < |selected| && CompanionEntry(table, selected[k], DevList(table, selected)[m])
  {
    DevListCons(table, selected);
    var head := DevEntry(table, selected[0]);
    if m < |head| {
      k := 0;
    } else {
      var k' := DevEntryOrigin(table, selected[1..], m - |head|);
      k := k' + 1;
    }
  }

  /** Taking one more selected package extends both lists by that package's
      entries. */
  lemma PartitionStep(table: seq<Package>, selected: seq<string>, i: int)
    requires 0 <= i < |selected|
    ensures RegularList(selected[..i + 1]) == RegularList(selected[..i]) + [Latest(selected[i])]
    ensures DevList(table, selected[..i + 1]) == DevList(table, selected[..i]) + DevEntry(table, selected[i])
  {
    var name := selected[i];
    assert selected[..i + 1] == selected[..i] + [name];
    DevListAppend(table, selected[..i], [name]);
    assert DevList(table, [name]) == DevEntry(table, name);
  }

  /** The partition loop of `install_additional_packages`: one regular entry
      per selected package, one dev entry per companion. */
  method PartitionSelected(table: seq<Package>, selected: seq<string>) returns (regular: seq<string>, dev: seq<string>)
    requires AllListed(table, selected)
    ensures regular == RegularList(selected)
    ensures dev == DevList(table, selected)
    ensures |dev| <= |regular|
  {
    regular := [];
    dev := [];
    for i := 0 to |selected|
      invariant regular == RegularList(selected[..i])
      invariant dev == DevList(table, selected[..i])
    {
      PartitionStep(table, selected, i);
      var name := selected[i];
      regular := regular + [Latest(name)];
      var c := Companion(table, name);
      if c.Some? && c.value != "" {
        dev := dev + [Latest(c.value)];
      }
    }
    assert selected[..|selected|] == selected;
  }

  /** Every name and companion in `table` is a single word. */
  predicate TableOfWords(table: seq<Package>) {
    forall k :: 0 <= k < |table| ==>
      IsWord(table[k].name) && (table[k].companion.Some? ==> IsWord(table[k].companion.value))
  }

  /** The names in rows 0 to 4 of the table are single words. The table's
      literals are checked a few rows at a time, which keeps each proof small. */
  lemma NamesInRows0To4AreWords()
    ensures IsWord("react-icons")
    ensures IsWord("axios")
    ensures IsWord("next-auth")
    ensures IsWord("zustand")
    ensures IsWord("date-fns")
  {
  }

  /** The names in rows 5 to 8 of the table are single words. */
  lemma NamesInRows5To8AreWords()
    ensures IsWord("bcrypt")
    ensures IsWord("qrious")
    ensures IsWord("react-confetti")
    ensures IsWord("react-google-recaptcha-v3")
  {
  }

  /** The scoped names in rows 9 to 13 of the table are single words. */
  lemma ScopedNamesAreWords()
    ensures IsWord("@emotion/react")
    ensures IsWord("@emotion/styled")
    ensures IsWord("@mui/material")
    ensures IsWord("@mui/x-date-pickers")
    ensures IsWord("@prisma/client")
  {
  }

  /** The three companions are single words. */
  lemma CompanionsAreWords()
    ensures IsWord("@types/bcrypt")
    ensures IsWord("@types/react-google-recaptcha")
    ensures IsWord("prisma")
  {
  }

  /** Every name and companion in the package table is a single word. */
  lemma CatalogOfWords()
    ensures TableOfWords(Catalog)
  {
    NamesInRows0To4AreWords();
    NamesInRows5To8AreWords();
    ScopedNamesAreWords();
    CompanionsAreWords();
  }

  lemma LatestIsWord(w: string)
    requires IsWord(w)
    ensures IsWord(Latest(w))
  {
    var l := Latest(w);
    forall k | 0 <= k < |l| ensures !IsWhitespace(l[k]) {
      if k >= |w| {
        assert l[k] == "@latest"[k - |w|];
      }
    }
  }

  /** Over a table of words, both install lists consist of single words. */
  lemma ListsOfWords(table: seq<Package>, selected: seq<string>)
    requires TableOfWords(table) && AllListed(table, selected)
    ensures forall k :: 0 <= k < |selected| ==> IsWord(RegularList(selected)[k])
    ensures forall m :: 0 <= m < |DevList(table, selected)| ==> IsWord(DevList(table, selected)[m])
  {
    forall k | 0 <= k < |selected| ensures IsWord(RegularList(selected)[k]) {
      assert table[Position(table, selected[k])].name == selected[k];
      LatestIsWord(selected[k]);
    }
    forall m | 0 <= m < |DevList(table, selected)| ensures IsWord(DevList(table, selected)[m]) {
      var k := DevEntryOrigin(table, selected, m);
      var c := Companion(table, selected[k]);
      var j :| 0 <= j < |table| && table[j].name == selected[k] && table[j].companion == c;
      LatestIsWord(c.value);
    }
  }

  /** Words of an install command: the prefix's words, then the listed packages. */
  lemma InstallCommandWords(pm: string, devDependency: bool, packages: seq<string>)
    requires forall k :: 0 <= k < |packages| ==> IsWord(packages[k])
    ensures Words(CreatePackageCommand(pm, devDependency) + " " + Join(" ", packages))
      == InstallVerb(pm) + DevFlagWords(pm, devDependency) + packages
  {
    WordsAroundSpace(CreatePackageCommand(pm, devDependency), Join(" ", packages));
    PackageCommandWords(pm, devDependency);
    JoinSplitRoundTrip(packages);
  }

  /** The words of both install commands for a selection from the table. */
  lemma InstallListsWords(pm: string, selected: seq<string>)
    requires AllListed(Catalog, selected)
    ensures Words(CreatePackageCommand(pm, false) + " " + Join(" ", RegularList(selected)))
      == InstallVerb(pm) + RegularList(selected)
    ensures Words(CreatePackageCommand(pm, true) + " " + Join(" ", DevList(Catalog, selected)))
      == InstallVerb(pm) + DevFlagWords(pm, true) + DevList(Catalog, selected)
  {
    CatalogOfWords();
    ListsOfWords(Catalog, selected);
    InstallCommandWords(pm, false, RegularList(selected));
    InstallCommandWords(pm, true, DevList(Catalog, selected));
  }

  /** The install step of `install_additional_packages`: nothing for an empty
      selection; otherwise the regular install, then a dev install exactly
      when some selected package has a companion. */
  method InstallCommands(pm: string, selected: seq<string>) returns (cmds: seq<string>)
    requires AllListed(Catalog, selected)
    ensures |selected| == 0 ==> cmds == []
    ensures |selected| > 0 ==> 1 <= |cmds| <= 2
    ensures |cmds| == 2 <==> exists k :: 0 <= k < |selected| && HasCompanion(Catalog, selected[k])
    ensures |cmds| >= 1 ==>
      cmds[0] == CreatePackageCommand(pm, false) + " " + Join(" ", RegularList(selected))
    ensures |cmds| == 2 ==>
      cmds[1] == CreatePackageCommand(pm, true) + " " + Join(" ", DevList(Catalog, selected))
    ensures |cmds| >= 1 ==> Words(cmds[0]) == InstallVerb(pm) + RegularList(selected)
    ensures |cmds| == 2 ==>
      Words(cmds[1]) == InstallVerb(pm) + DevFlagWords(pm, true) + DevList(Catalog, selected)
  {
    cmds := [];
    if |selected| > 0 {
      var regular, dev := PartitionSelected(Catalog, selected);
      InstallListsWords(pm, selected);
      DevListEmpty(Catalog, selected);
      if |regular| > 0 {
        cmds := cmds + [CreatePackageCommand(pm, false) + " " + Join(" ", regular)];
      }
      if |dev| > 0 {
        cmds := cmds + [CreatePackageCommand(pm, true) + " " + Join(" ", dev)];
      }
    }
  }

  /** `Position` finds the first entry with the name. */
  lemma {:induction false} PositionIs(table: seq<Package>, name: string, k: nat)
    requires k < |table| && table[k].name == name
    requires forall j :: 0 <= j < k ==> table[j].name != name
    ensures Position(table, name) == k
  {
    if k > 0 {
      PositionIs(table[1..], name, k - 1);
    }
  }

  /** bcrypt, sixth in the table, brings its type declarations along as a dev
      dependency. */
  lemma BcryptCompanion()
    ensures Companion(Catalog, "bcrypt") == Some("@types/bcrypt")
  {
    PositionIs(Catalog, "bcrypt", 5);
  }

  /** The regular npm install of bcrypt alone: the empty dev flag leaves two
      spaces after `install`. */
  lemma BcryptRegularWithNpm()
    ensures CreatePackageCommand("npm", false) + " " + Join(" ", [Latest("bcrypt")])
      == "npm install  bcrypt@latest"
  {
    assert CreatePackageCommand("npm", false) == "npm install ";
    assert Join(" ", [Latest("bcrypt")]) == "bcrypt@latest";
  }
}
