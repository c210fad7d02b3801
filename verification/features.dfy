/** The feature menu of the project generator and the mapping from ticked menu
    entries to generator flags (root.py, `get_selected_features` and
    `map_flags_to_selected_options`). */
module Features {
  import opened Text
  import MenuLabels

  /** One toggleable generator feature: the name looked up in the ticked menu
      entries, and the flag emitted when it is ticked. */
  datatype Feature = Feature(name: string, flag: string)

  /** The flag table, in declaration order (the order the flags are emitted in). */
  const Catalog: seq<Feature> := [
    Feature("TypeScript", "--typescript"),
    Feature("ESLint", "--eslint"),
    Feature("src/ directory", "--src-dir"),
    Feature("App Router", "--app"),
    Feature("Tailwind CSS", "--tailwind"),
    Feature("Import alias \"@/*\"", "--import-alias \"@/*\"")
  ]

  /** The entries of the multiple-choice menu the user ticks. */
  const MenuOptions: seq<string> := [
    "TypeScript (--typescript)",
    "ESLint (--eslint)",
    "src/ directory (--src-dir)",
    "App Router (--app)",
    "Tailwind CSS (--tailwind)",
    "Import alias \"@/*\" (--import-alias)"
  ]

  /** Menu entries ticked before the user touches anything. */
  const DefaultTicked: seq<int> := [0, 1, 3, 4]

  /** The disable flag of every feature, written out; the mapper derives these
      by string surgery on the positive flag. */
  const NegatedFlags: seq<string> := [
    "--no-typescript",
    "--no-eslint",
    "--no-src-dir",
    "--no-app",
    "--no-tailwind",
    "--no-import-alias"
  ]

  /** The menu entries at the given indices, in the given order. */
  function Ticked(indices: seq<int>): (options: seq<string>)
    requires forall k :: 0 <= k < |indices| ==> 0 <= indices[k] < |MenuOptions|
    ensures |options| == |indices|
    ensures forall k :: 0 <= k < |indices| ==> options[k] == MenuOptions[indices[k]]
  {
    seq(|indices|, k requires 0 <= k < |indices| => MenuOptions[indices[k]])
  }

  /** Python's `any(name in option for option in selected)`. */
  predicate AnySelected(name: string, selected: seq<string>) {
    exists j | 0 <= j < |selected| :: IsInfix(name, selected[j])
  }

  /** Python's `s[n:]` for a non-negative `n`: empty once `n` passes the end. */
  function SliceFrom(s: string, n: nat): string {
    if n <= |s| then s[n..] else []
  }

  /** `"--no-" + flag.split()[0][2:]`: the first word of the positive flag with
      its two leading characters replaced by `--no-`. Python raises on a flag
      with no word; the requires excludes that. */
  function NegatedFlag(positive: string): (negative: string)
    requires HasWord(positive)
    ensures IsWord(negative)
    ensures "--no-" <= negative
  {
    "--no-" + SliceFrom(FirstWord(positive), 2)
  }

  /** The flag for one feature under the current selection. */
  function FlagFor(f: Feature, selected: seq<string>): string
    requires HasWord(f.flag)
  {
    if AnySelected(f.name, selected) then f.flag else NegatedFlag(f.flag)
  }

  /** The positive flags taken apart: the name after the leading `--`, and the
      argument text that follows the name (empty, or starting with a space). */
  const FlagNames: seq<string> := ["typescript", "eslint", "src-dir", "app", "tailwind", "import-alias"]
  const FlagArguments: seq<string> := ["", "", "", "", "", " \"@/*\""]

  lemma FlagsTakenApart()
    ensures forall i :: 0 <= i < |Catalog| ==> Catalog[i].flag == "--" + FlagNames[i] + FlagArguments[i]
  {
  }

  lemma DashedNamesAreWords()
    ensures forall i :: 0 <= i < |FlagNames| ==> IsWord("--" + FlagNames[i])
  {
  }

  lemma ArgumentsStartWithSpace()
    ensures forall i :: 0 <= i < |FlagArguments| ==> FlagArguments[i] == "" || FlagArguments[i][0] == ' '
  {
  }

  lemma NegatedFlagsByName()
    ensures forall i :: 0 <= i < |NegatedFlags| ==> NegatedFlags[i] == "--no-" + FlagNames[i]
  {
  }

  lemma CatalogShape()
    ensures forall i :: 0 <= i < |Catalog| ==>
      && Catalog[i].flag == "--" + FlagNames[i] + FlagArguments[i]
      && IsWord("--" + FlagNames[i])
      && (FlagArguments[i] == "" || FlagArguments[i][0] == ' ')
      && NegatedFlags[i] == "--no-" + FlagNames[i]
  {
    FlagsTakenApart();
    DashedNamesAreWords();
    ArgumentsStartWithSpace();
    NegatedFlagsByName();
  }

  /** Negating `--name` or `--name arg` gives `--no-name`: the argument is dropped. */
  lemma NegateDashedFlag(name: string, arg: string)
    requires IsWord("--" + name)
    requires arg == "" || arg[0] == ' '
    ensures HasWord("--" + name + arg)
    ensures NegatedFlag("--" + name + arg) == "--no-" + name
  {
    var w := "--" + name;
    if arg == "" {
      assert w + arg == w;
      FirstWordOfWord(w);
    } else {
      assert w + arg == w + " " + arg[1..];
      FirstWordBeforeSpace(w, arg[1..]);
    }
    assert w[2..] == name;
  }

  /** The derived disable flags are exactly the written-out table. */
  lemma NegatedFlagsAgree()
    ensures forall i :: 0 <= i < |Catalog| ==> HasWord(Catalog[i].flag)
    ensures forall i :: 0 <= i < |Catalog| ==> NegatedFlag(Catalog[i].flag) == NegatedFlags[i]
  {
    CatalogShape();
    forall i | 0 <= i < |Catalog|
      ensures HasWord(Catalog[i].flag) && NegatedFlag(Catalog[i].flag) == NegatedFlags[i]
    {
      NegateDashedFlag(FlagNames[i], FlagArguments[i]);
    }
  }

  /** `map_flags_to_selected_options`: one flag per catalog feature, in catalog
      order; the positive flag exactly when some selected entry contains the
      feature's label, otherwise its disable flag. */
  function MapFlags(selected: seq<string>): (flags: seq<string>)
    ensures |flags| == |Catalog|
    ensures forall i :: 0 <= i < |Catalog| ==>
      (flags[i] == Catalog[i].flag <==> AnySelected(Catalog[i].name, selected))
    ensures forall i :: 0 <= i < |Catalog| ==>
      (flags[i] == NegatedFlags[i] <==> !AnySelected(Catalog[i].name, selected))
  {
    NegatedFlagsAgree();
    seq(|Catalog|, i requires 0 <= i < |Catalog| => FlagFor(Catalog[i], selected))
  }

  /** Label `i` occurs in menu entry `i` and in no other. */
  lemma LabelOnlyInOwnEntry(i: int)
    requires 0 <= i < |Catalog|
    ensures forall j :: 0 <= j < |MenuOptions| ==> (IsInfix(Catalog[i].name, MenuOptions[j]) <==> i == j)
  {
    MenuLabels.LabelsStartTheirEntries();
    if i == 0 {
      MenuLabels.TypeScriptLabelOnlyInOwnEntry();
      assert Catalog[0].name == "TypeScript";
    } else if i == 1 {
      MenuLabels.ESLintLabelOnlyInOwnEntry();
      assert Catalog[1].name == "ESLint";
    } else if i == 2 {
      MenuLabels.SrcDirectoryLabelOnlyInOwnEntry();
      assert Catalog[2].name == "src/ directory";
    } else if i == 3 {
      MenuLabels.AppRouterLabelOnlyInOwnEntry();
      assert Catalog[3].name == "App Router";
    } else if i == 4 {
      MenuLabels.TailwindLabelOnlyInOwnEntry();
      assert Catalog[4].name == "Tailwind CSS";
    } else if i == 5 {
      MenuLabels.ImportAliasLabelOnlyInOwnEntry();
      assert Catalog[5].name == "Import alias \"@/*\"";
    }
  }

  /** The menu and the catalog line up: label `i` occurs in menu entry `j`
      exactly when `i == j`. */
  lemma LabelsMatchOwnEntryOnly()
    ensures forall i, j :: 0 <= i < |Catalog| && 0 <= j < |MenuOptions| ==>
      (IsInfix(Catalog[i].name, MenuOptions[j]) <==> i == j)
  {
    forall i | 0 <= i < |Catalog| {
      LabelOnlyInOwnEntry(i);
    }
  }

  /** Ticking the menu entries at `indices` turns on exactly the flags at those
      indices and disables every other feature. */
  lemma TickedFlags(indices: seq<int>)
    requires forall k :: 0 <= k < |indices| ==> 0 <= indices[k] < |MenuOptions|
    ensures forall i :: 0 <= i < |Catalog| ==>
      MapFlags(Ticked(indices))[i] == (if i in indices then Catalog[i].flag else NegatedFlags[i])
  {
    LabelsMatchOwnEntryOnly();
    var selected := Ticked(indices);
    forall i | 0 <= i < |Catalog|
      ensures AnySelected(Catalog[i].name, selected) <==> i in indices
    {
      if i in indices {
        var k :| 0 <= k < |indices| && indices[k] == i;
        assert IsInfix(Catalog[i].name, selected[k]);
      }
    }
  }

  /** With the default ticks the generator gets TypeScript, ESLint, the App
      Router and Tailwind, and no src/ directory and no import alias. */
  lemma DefaultFlags()
    ensures MapFlags(Ticked(DefaultTicked)) ==
      ["--typescript", "--eslint", "--no-src-dir", "--app", "--tailwind", "--no-import-alias"]
  {
    TickedFlags(DefaultTicked);
  }

  /** Ticking more entries never turns an enabled feature off. */
  lemma MoreSelectedKeepsEnabled(selected: seq<string>, more: seq<string>)
    requires forall j :: 0 <= j < |selected| ==> selected[j] in more
    ensures forall i :: 0 <= i < |Catalog| && MapFlags(selected)[i] == Catalog[i].flag ==>
      MapFlags(more)[i] == Catalog[i].flag
  {
    forall i | 0 <= i < |Catalog| && AnySelected(Catalog[i].name, selected)
      ensures AnySelected(Catalog[i].name, more)
    {
      var j :| 0 <= j < |selected| && IsInfix(Catalog[i].name, selected[j]);
      var j' :| 0 <= j' < |more| && more[j'] == selected[j];
    }
  }

  /** The import alias flag is asymmetric: enabled it is the flag name followed
      by the quoted alias pattern; disabled it is the bare disable flag, because
      negation keeps only the first word. */
  lemma ImportAliasAsymmetry(selected: seq<string>)
    ensures AnySelected(Catalog[5].name, selected) ==>
      MapFlags(selected)[5] == "--import-alias" + " " + "\"@/*\""
    ensures !AnySelected(Catalog[5].name, selected) ==>
      MapFlags(selected)[5] == "--no-import-alias"
  {
  }
}
