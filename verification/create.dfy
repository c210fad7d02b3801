/** The scaffolding command line handed to the shell (root.py,
    `build_create_command`). Each template is tied to the launcher and
    manager-flag tables once, by one literal lemma per manager: a single
    lemma over all four literal templates is too costly for the solver. Every
    fact about words is then derived from the tables. */
module CreateCommand {
  import opened Text

  /** The managers with a template of their own; any other value takes the
      bun template. */
  predicate IsKnownManager(pm: string) {
    pm == "npm" || pm == "yarn" || pm == "pnpm"
  }

  /** The manager whose template is used for `pm`. */
  function TemplateManager(pm: string): string {
    if IsKnownManager(pm) then pm else "bun"
  }

  /** The generator invocation of each template, as words. */
  function Launcher(pm: string): (ws: seq<string>)
    ensures |ws| == 2 || |ws| == 3
  {
    if pm == "npm" then ["npx", "create-next-app@latest"]
    else if pm == "yarn" then ["yarn", "create", "next-app"]
    else if pm == "pnpm" then ["pnpm", "create", "next-app"]
    else ["bunx", "create-next-app"]
  }

  /** The command before the feature flags: the template of `pm` with the
      project name filled in. */
  function BaseCommand(appName: string, pm: string): string {
    if pm == "npm" then "npx create-next-app@latest " + appName + " --use-npm"
    else if pm == "yarn" then "yarn create next-app " + appName + " --use-yarn"
    else if pm == "pnpm" then "pnpm create next-app " + appName + " --use-pnpm"
    else "bunx create-next-app " + appName + " --use-bun"
  }

  /** `build_create_command`: the base command, one space, then the flags
      joined by single spaces. */
  function BuildCreateCommand(appName: string, pm: string, flags: seq<string>): (cmd: string)
    ensures BaseCommand(appName, pm) + " " <= cmd
    ensures Join(" ", Launcher(pm)) + " " + appName + " " + UseFlag(pm) + " " <= cmd
    ensures |cmd| == |BaseCommand(appName, pm)| + 1 + |Join(" ", flags)|
    ensures cmd[|cmd| - |Join(" ", flags)|..] == Join(" ", flags)
  {
    BaseCommandFromTables(appName, pm);
    BaseCommand(appName, pm) + " " + Join(" ", flags)
  }

  /** The template of each manager is its launcher words joined by spaces,
      the project name, then its manager-selection flag. */
  lemma BaseCommandFromTables(appName: string, pm: string)
    ensures BaseCommand(appName, pm) == Join(" ", Launcher(pm)) + " " + appName + " " + UseFlag(pm)
  {
    if pm == "npm" {
      NpmFromTables(appName, pm);
    } else if pm == "yarn" {
      YarnFromTables(appName, pm);
    } else if pm == "pnpm" {
      PnpmFromTables(appName, pm);
    } else {
      BunFromTables(appName, pm);
    }
  }

  lemma NpmFromTables(a: string, pm: string)
    requires pm == "npm"
    ensures BaseCommand(a, pm) == Join(" ", Launcher(pm)) + " " + a + " " + UseFlag(pm)
  {
    var launcher, flag := "npx create-next-app@latest", "--use-npm";
    JoinTwo(" ", "npx", "create-next-app@latest");
    assert Join(" ", Launcher(pm)) == launcher && UseFlag(pm) == flag;
    assert "npx create-next-app@latest " == launcher + " ";
    assert " --use-npm" == " " + flag;
  }

  lemma YarnFromTables(a: string, pm: string)
    requires pm == "yarn"
    ensures BaseCommand(a, pm) == Join(" ", Launcher(pm)) + " " + a + " " + UseFlag(pm)
  {
    var launcher, flag := "yarn create next-app", "--use-yarn";
    JoinThree(" ", "yarn", "create", "next-app");
    assert Join(" ", Launcher(pm)) == launcher && UseFlag(pm) == flag;
    assert "yarn create next-app " == launcher + " ";
    assert " --use-yarn" == " " + flag;
  }

  lemma PnpmFromTables(a: string, pm: string)
    requires pm == "pnpm"
    ensures BaseCommand(a, pm) == Join(" ", Launcher(pm)) + " " + a + " " + UseFlag(pm)
  {
    var launcher, flag := "pnpm create next-app", "--use-pnpm";
    JoinThree(" ", "pnpm", "create", "next-app");
    assert Join(" ", Launcher(pm)) == launcher && UseFlag(pm) == flag;
    assert "pnpm create next-app " == launcher + " ";
    assert " --use-pnpm" == " " + flag;
  }

  lemma BunFromTables(a: string, pm: string)
    requires !IsKnownManager(pm)
    ensures BaseCommand(a, pm) == Join(" ", Launcher(pm)) + " " + a + " " + UseFlag(pm)
  {
    var launcher, flag := "bunx create-next-app", "--use-bun";
    JoinTwo(" ", "bunx", "create-next-app");
    assert Join(" ", Launcher(pm)) == launcher && UseFlag(pm) == flag;
    assert "bunx create-next-app " == launcher + " ";
    assert " --use-bun" == " " + flag;
  }

  /** The manager-selection flag the command ends its template with. */
  function UseFlag(pm: string): string {
    "--use-" + TemplateManager(pm)
  }

  /** Any manager outside the three known ones gets exactly the bun command. */
  lemma UnknownManagerUsesBun(appName: string, pm: string, flags: seq<string>)
    requires !IsKnownManager(pm)
    ensures BuildCreateCommand(appName, pm, flags) == BuildCreateCommand(appName, "bun", flags)
    ensures Launcher(pm) == ["bunx", "create-next-app"] && UseFlag(pm) == "--use-bun"
  {
  }

  /** Every launcher word and every manager-selection flag is a single word. */
  lemma TemplateTablesAreWords(pm: string)
    ensures forall i :: 0 <= i < |Launcher(pm)| ==> IsWord(Launcher(pm)[i])
    ensures IsWord(UseFlag(pm))
  {
    if pm == "npm" {
      assert Launcher(pm) == ["npx", "create-next-app@latest"] && UseFlag(pm) == "--use-npm";
    } else if IsKnownManager(pm) {
      assert Launcher(pm) == [pm, "create", "next-app"] && UseFlag(pm) == "--use-" + pm;
      assert IsWord(pm);
    } else {
      assert Launcher(pm) == ["bunx", "create-next-app"] && UseFlag(pm) == "--use-bun";
    }
  }

  /** Split into words, the base command followed by a space and `rest` is
      the launcher of the template, the words of the project name, the
      manager-selection flag, then the words of `rest`. */
  lemma BaseCommandWords(appName: string, pm: string, rest: string)
    ensures Words(BaseCommand(appName, pm) + " " + rest)
      == Launcher(pm) + Words(appName) + [UseFlag(pm)] + Words(rest)
  {
    var launcher := Join(" ", Launcher(pm));
    BaseCommandFromTables(appName, pm);
    TemplateTablesAreWords(pm);
    WordsAroundName(launcher, appName, UseFlag(pm), rest);
    WordsOfJoin(Launcher(pm));
    AllWordsOfWords(Launcher(pm));
  }

  /** The words of the whole command, for any project name: the launcher, the
      words of the name, the manager flag, then every word of every feature
      flag in order. A name with whitespace in it comes apart. */
  lemma CreateCommandWords(appName: string, pm: string, flags: seq<string>)
    ensures Words(BuildCreateCommand(appName, pm, flags))
      == Launcher(pm) + Words(appName) + [UseFlag(pm)] + AllWords(flags)
  {
    BaseCommandWords(appName, pm, Join(" ", flags));
    WordsOfJoin(flags);
  }

  /** A one-word project name reaches the generator as exactly one word,
      right after the launcher. */
  lemma OneWordNameCommandWords(appName: string, pm: string, flags: seq<string>)
    requires IsWord(appName)
    ensures Words(BuildCreateCommand(appName, pm, flags))
      == Launcher(pm) + [appName, UseFlag(pm)] + AllWords(flags)
  {
    CreateCommandWords(appName, pm, flags);
    WordsOfWord(appName);
    assert Launcher(pm) + [appName] + [UseFlag(pm)] == Launcher(pm) + [appName, UseFlag(pm)];
  }

  /** A concrete command line. */
  lemma NpmExample()
    ensures BuildCreateCommand("my-app", "npm", ["--typescript"])
      == "npx create-next-app@latest my-app --use-npm --typescript"
  {
  }
}
