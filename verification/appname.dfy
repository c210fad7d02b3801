/** The project-name prompt (root.py, `get_app_name` and
    `is_valid_app_name`). Whether a path exists is a question about the file
    system, so it is a parameter. */
module AppName {
  import opened Text

  /** Which of the validator's three messages a name draws, if any. */
  datatype Verdict = Accepted | ContainsSpace | ContainsUppercase | AlreadyExists

  /** The name used when the answer to the prompt is empty. */
  const DefaultName: string := "my-next-app"

  /** `prompt(...) or "my-next-app"`: an empty answer takes the default. */
  function NameOrDefault(answer: string): (name: string)
    ensures |name| > 0
    ensures answer == [] ==> name == DefaultName
    ensures answer != [] ==> name == answer
  {
    if answer == [] then DefaultName else answer
  }

  predicate HasUppercase(name: string) {
    exists k | 0 <= k < |name| :: IsUpperAscii(name[k])
  }

  predicate HasWhitespace(name: string) {
    exists k | 0 <= k < |name| :: IsWhitespace(name[k])
  }

  /** `is_valid_app_name` as written: the space check, then the uppercase
      check, then the file system, and the first failure decides. Only the
      space character counts as a space. */
  function CheckAppName(name: string, pathExists: string -> bool): (v: Verdict)
    ensures v == Accepted <==> ' ' !in name && !HasUppercase(name) && !pathExists(name)
    ensures v == ContainsSpace ==> ' ' in name
    ensures v == ContainsUppercase ==> HasUppercase(name) && ' ' !in name
    ensures v == AlreadyExists ==> pathExists(name) && ' ' !in name && !HasUppercase(name)
  {
    if ' ' in name then ContainsSpace
    else if HasUppercase(name) then ContainsUppercase
    else if pathExists(name) then AlreadyExists
    else Accepted
  }

  /** The file system is consulted last: a name with a space or an uppercase
      letter gets the same verdict whatever exists on disk. */
  lemma MalformedNamesIgnoreFileSystem(name: string, e1: string -> bool, e2: string -> bool)
    requires ' ' in name || HasUppercase(name)
    ensures CheckAppName(name, e1) == CheckAppName(name, e2) != Accepted
  {
  }

  /** The corrected validator: any whitespace character is rejected, not only
      the space, so that an accepted name is a single word of the command line
      it is substituted into. */
  function CheckAppNameStrict(name: string, pathExists: string -> bool): (v: Verdict)
    ensures v == Accepted <==> !HasWhitespace(name) && !HasUppercase(name) && !pathExists(name)
  {
    if HasWhitespace(name) then ContainsSpace
    else if HasUppercase(name) then ContainsUppercase
    else if pathExists(name) then AlreadyExists
    else Accepted
  }

  /** On names whose only whitespace is the space character, the strict
      validator and the one as written agree. */
  lemma StrictAgreesOnSpaces(name: string, pathExists: string -> bool)
    requires forall k :: 0 <= k < |name| && IsWhitespace(name[k]) ==> name[k] == ' '
    ensures CheckAppNameStrict(name, pathExists) == CheckAppName(name, pathExists)
  {
    if HasWhitespace(name) {
      var k :| 0 <= k < |name| && IsWhitespace(name[k]);
      assert name[k] == ' ';
    }
  }

  /** A name the strict validator accepts, after the default is applied, is a
      single `str.split()` word. */
  lemma StrictAcceptsWords(answer: string, pathExists: string -> bool)
    requires CheckAppNameStrict(NameOrDefault(answer), pathExists) == Accepted
    ensures IsWord(NameOrDefault(answer))
  {
  }

  /** A name with a tab passes the validator as written. */
  lemma TabbedNameAccepted()
    ensures CheckAppName("my\tapp", _ => false) == Accepted
    ensures CheckAppNameStrict("my\tapp", _ => false) == ContainsSpace
  {
    assert "my\tapp"[2] == '\t';
  }

  /** The default name passes both validators when nothing is in the way. */
  lemma DefaultNameAccepted(pathExists: string -> bool)
    requires !pathExists(DefaultName)
    ensures CheckAppName(DefaultName, pathExists) == Accepted
    ensures CheckAppNameStrict(DefaultName, pathExists) == Accepted
  {
  }
}
