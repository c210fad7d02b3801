/** The pure part of `main` in root.py: the project name, the ticked features
    and the package manager turned into the command line that is run through
    the shell. */
module Wizard {
  import opened Text
  import opened AppName
  import opened Features
  import opened CreateCommand

  /** The result of one pass through the prompts: the validator's rejection
      (upon which the name is asked for again) or the command line to run. */
  datatype Outcome = Rejected(reason: Verdict) | Command(line: string)

  /** One pass of `main` as written: default the name, validate it with
      `is_valid_app_name`, map the ticked menu entries to flags and build the
      scaffolding command. */
  function ProjectCommand(answer: string, pathExists: string -> bool, pm: string, ticked: seq<int>): (o: Outcome)
    requires forall k :: 0 <= k < |ticked| ==> 0 <= ticked[k] < |MenuOptions|
    ensures o.Rejected? <==> CheckAppName(NameOrDefault(answer), pathExists) != Accepted
    ensures o.Rejected? ==> o.reason == CheckAppName(NameOrDefault(answer), pathExists)
    ensures o.Command? ==> BaseCommand(NameOrDefault(answer), pm) + " " <= o.line
    ensures o.Command? ==>
      Words(o.line) == Launcher(pm) + Words(NameOrDefault(answer)) + [UseFlag(pm)] + AllWords(MapFlags(Ticked(ticked)))
  {
    var name := NameOrDefault(answer);
    var verdict := CheckAppName(name, pathExists);
    if verdict != Accepted then Rejected(verdict)
    else
      CreateCommandWords(name, pm, MapFlags(Ticked(ticked)));
      Command(BuildCreateCommand(name, pm, MapFlags(Ticked(ticked))))
  }

  /** The same pass with the corrected validator, which turns away every
      whitespace character (see the findings in README.md). */
  function ProjectCommandStrict(answer: string, pathExists: string -> bool, pm: string, ticked: seq<int>): (o: Outcome)
    requires forall k :: 0 <= k < |ticked| ==> 0 <= ticked[k] < |MenuOptions|
    ensures o.Rejected? <==> CheckAppNameStrict(NameOrDefault(answer), pathExists) != Accepted
    ensures o.Rejected? ==> o.reason == CheckAppNameStrict(NameOrDefault(answer), pathExists)
    ensures o.Command? ==> BaseCommand(NameOrDefault(answer), pm) + " " <= o.line
    ensures o.Command? ==>
      Words(o.line) == Launcher(pm) + Words(NameOrDefault(answer)) + [UseFlag(pm)] + AllWords(MapFlags(Ticked(ticked)))
  {
    var name := NameOrDefault(answer);
    var verdict := CheckAppNameStrict(name, pathExists);
    if verdict != Accepted then Rejected(verdict)
    else
      CreateCommandWords(name, pm, MapFlags(Ticked(ticked)));
      Command(BuildCreateCommand(name, pm, MapFlags(Ticked(ticked))))
  }

  /** The correction changes nothing for answers whose only whitespace is the
      space character: both passes give the same outcome. */
  lemma StrictPassAgreesOnSpaces(answer: string, pathExists: string -> bool, pm: string, ticked: seq<int>)
    requires forall k :: 0 <= k < |ticked| ==> 0 <= ticked[k] < |MenuOptions|
    requires forall k :: 0 <= k < |answer| && IsWhitespace(answer[k]) ==> answer[k] == ' '
    ensures ProjectCommandStrict(answer, pathExists, pm, ticked) == ProjectCommand(answer, pathExists, pm, ticked)
  {
    var name := NameOrDefault(answer);
    if answer == [] {
      assert forall k :: 0 <= k < |name| ==> !IsWhitespace(name[k]);
    }
    StrictAgreesOnSpaces(name, pathExists);
  }

  /** With the corrected validator the project name reaches the generator as
      exactly one `str.split()` word, right after the launcher words, followed
      by the manager flag and then the words of the six feature flags. */
  lemma ProjectNameIsOneArgument(answer: string, pathExists: string -> bool, pm: string, ticked: seq<int>)
    requires forall k :: 0 <= k < |ticked| ==> 0 <= ticked[k] < |MenuOptions|
    requires ProjectCommandStrict(answer, pathExists, pm, ticked).Command?
    ensures Words(ProjectCommandStrict(answer, pathExists, pm, ticked).line)
      == Launcher(pm) + [NameOrDefault(answer), UseFlag(pm)] + AllWords(MapFlags(Ticked(ticked)))
  {
    StrictAcceptsWords(answer, pathExists);
    OneWordNameCommandWords(NameOrDefault(answer), pm, MapFlags(Ticked(ticked)));
  }

  /** As written, the validator lets a name with a tab through, and the
      command line then comes apart at the tab, as it does for the shell, which
      also splits at tabs: `create-next-app` receives `my` as the project directory
      and `app` as a stray argument. */
  lemma TabbedNameSplitsCommand()
    ensures CheckAppName("my\tapp", _ => false) == Accepted
    ensures Words(BuildCreateCommand("my\tapp", "npm", [])) == ["npx", "create-next-app@latest", "my", "app", "--use-npm"]
  {
    TabbedNameAccepted();
    TabbedNameCommandWords("npm", []);
    assert Launcher("npm") == ["npx", "create-next-app@latest"] && UseFlag("npm") == "--use-npm";
    assert AllWords([]) == [];
    assert Launcher("npm") + ["my", "app", UseFlag("npm")] + AllWords([])
      == ["npx", "create-next-app@latest", "my", "app", "--use-npm"];
  }

  /** Under any manager and flags, the tabbed name arrives as two words. */
  lemma TabbedNameCommandWords(pm: string, flags: seq<string>)
    ensures Words(BuildCreateCommand("my\tapp", pm, flags)) == Launcher(pm) + ["my", "app", UseFlag(pm)] + AllWords(flags)
  {
    CreateCommandWords("my\tapp", pm, flags);
    TabbedNameWords();
  }

  /** The tab splits the name into two words. */
  lemma TabbedNameWords()
    ensures Words("my\tapp") == ["my", "app"]
  {
    assert "my\tapp" == "my" + ['\t'] + "app";
    WordsAroundWhitespace("my", '\t', "app");
    assert IsWord("my") && IsWord("app");
    WordsOfWord("my");
    WordsOfWord("app");
  }

  /** As written, `main` builds a command for the answer `my<TAB>app` whenever
      nothing of that name exists; the corrected pass turns it away. */
  lemma TabbedAnswerReachesCommand(pathExists: string -> bool, pm: string, ticked: seq<int>)
    requires forall k :: 0 <= k < |ticked| ==> 0 <= ticked[k] < |MenuOptions|
    requires !pathExists("my\tapp")
    ensures ProjectCommand("my\tapp", pathExists, pm, ticked).Command?
    ensures ProjectCommandStrict("my\tapp", pathExists, pm, ticked) == Rejected(ContainsSpace)
  {
    assert "my\tapp"[2] == '\t';
    assert forall k :: 0 <= k < |"my\tapp"| ==> !IsUpperAscii("my\tapp"[k]);
  }
}
