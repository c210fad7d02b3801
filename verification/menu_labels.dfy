/** Containment facts about the literal labels and menu entries of the
    feature menu (root.py:46-53 and the labels of root.py:75-80): each label
    occurs in its own entry and in no other. They are stated over the literal
    strings so that each proof only looks at a handful of characters. */
module MenuLabels {
  import opened Text

  /** Menu label "TypeScript" occurs in its own entry and in no other. */
  lemma TypeScriptLabelOnlyInOwnEntry()
    ensures !IsInfix("TypeScript", "ESLint (--eslint)")
    ensures !IsInfix("TypeScript", "src/ directory (--src-dir)")
    ensures !IsInfix("TypeScript", "App Router (--app)")
    ensures !IsInfix("TypeScript", "Tailwind CSS (--tailwind)")
    ensures !IsInfix("TypeScript", "Import alias \"@/*\" (--import-alias)")
  {
    NotInfixAt("TypeScript", "ESLint (--eslint)", 1);
    NotInfixAt("TypeScript", "src/ directory (--src-dir)", 0);
    NotInfixAt("TypeScript", "App Router (--app)", 1);
    NotInfixAt("TypeScript", "Tailwind CSS (--tailwind)", 1);
    NotInfixAt("TypeScript", "Import alias \"@/*\" (--import-alias)", 1);
  }

  /** Menu label "ESLint" occurs in its own entry and in no other. */
  lemma ESLintLabelOnlyInOwnEntry()
    ensures !IsInfix("ESLint", "TypeScript (--typescript)")
    ensures !IsInfix("ESLint", "src/ directory (--src-dir)")
    ensures !IsInfix("ESLint", "App Router (--app)")
    ensures !IsInfix("ESLint", "Tailwind CSS (--tailwind)")
    ensures !IsInfix("ESLint", "Import alias \"@/*\" (--import-alias)")
  {
    NotInfixAt("ESLint", "TypeScript (--typescript)", 0);
    NotInfixAt("ESLint", "src/ directory (--src-dir)", 0);
    NotInfixAt("ESLint", "App Router (--app)", 0);
    NotInfixAt("ESLint", "Tailwind CSS (--tailwind)", 0);
    NotInfixAt("ESLint", "Import alias \"@/*\" (--import-alias)", 0);
  }

  /** Menu label "src/ directory" occurs in its own entry and in no other. */
  lemma SrcDirectoryLabelOnlyInOwnEntry()
    ensures !IsInfix("src/ directory", "TypeScript (--typescript)")
    ensures !IsInfix("src/ directory", "ESLint (--eslint)")
    ensures !IsInfix("src/ directory", "App Router (--app)")
    ensures !IsInfix("src/ directory", "Tailwind CSS (--tailwind)")
    ensures !IsInfix("src/ directory", "Import alias \"@/*\" (--import-alias)")
  {
    NotInfixAt("src/ directory", "TypeScript (--typescript)", 3);
    NotInfixAt("src/ directory", "ESLint (--eslint)", 3);
    NotInfixAt("src/ directory", "App Router (--app)", 3);
    NotInfixAt("src/ directory", "Tailwind CSS (--tailwind)", 3);
    NotInfixAt("src/ directory", "Import alias \"@/*\" (--import-alias)", 13);
  }

  /** Menu label "App Router" occurs in its own entry and in no other. */
  lemma AppRouterLabelOnlyInOwnEntry()
    ensures !IsInfix("App Router", "TypeScript (--typescript)")
    ensures !IsInfix("App Router", "ESLint (--eslint)")
    ensures !IsInfix("App Router", "src/ directory (--src-dir)")
    ensures !IsInfix("App Router", "Tailwind CSS (--tailwind)")
    ensures !IsInfix("App Router", "Import alias \"@/*\" (--import-alias)")
  {
    NotInfixAt("App Router", "TypeScript (--typescript)", 0);
    NotInfixAt("App Router", "ESLint (--eslint)", 0);
    NotInfixAt("App Router", "src/ directory (--src-dir)", 0);
    NotInfixAt("App Router", "Tailwind CSS (--tailwind)", 0);
    NotInfixAt("App Router", "Import alias \"@/*\" (--import-alias)", 0);
  }

  /** Menu label "Tailwind CSS" occurs in its own entry and in no other. */
  lemma TailwindLabelOnlyInOwnEntry()
    ensures !IsInfix("Tailwind CSS", "TypeScript (--typescript)")
    ensures !IsInfix("Tailwind CSS", "ESLint (--eslint)")
    ensures !IsInfix("Tailwind CSS", "src/ directory (--src-dir)")
    ensures !IsInfix("Tailwind CSS", "App Router (--app)")
    ensures !IsInfix("Tailwind CSS", "Import alias \"@/*\" (--import-alias)")
  {
    NotInfixAt("Tailwind CSS", "TypeScript (--typescript)", 9);
    NotInfixAt("Tailwind CSS", "ESLint (--eslint)", 9);
    NotInfixAt("Tailwind CSS", "src/ directory (--src-dir)", 9);
    NotInfixAt("Tailwind CSS", "App Router (--app)", 9);
    NotInfixAt("Tailwind CSS", "Import alias \"@/*\" (--import-alias)", 9);
  }

  /** The import-alias label occurs in its own entry and in no other. */
  lemma ImportAliasLabelOnlyInOwnEntry()
    ensures !IsInfix("Import alias \"@/*\"", "TypeScript (--typescript)")
    ensures !IsInfix("Import alias \"@/*\"", "ESLint (--eslint)")
    ensures !IsInfix("Import alias \"@/*\"", "src/ directory (--src-dir)")
    ensures !IsInfix("Import alias \"@/*\"", "App Router (--app)")
    ensures !IsInfix("Import alias \"@/*\"", "Tailwind CSS (--tailwind)")
  {
    NotInfixAt("Import alias \"@/*\"", "TypeScript (--typescript)", 14);
    NotInfixAt("Import alias \"@/*\"", "ESLint (--eslint)", 14);
    NotInfixAt("Import alias \"@/*\"", "src/ directory (--src-dir)", 14);
    NotInfixAt("Import alias \"@/*\"", "App Router (--app)", 14);
    NotInfixAt("Import alias \"@/*\"", "Tailwind CSS (--tailwind)", 14);
  }

  /** Every label is a prefix of its own menu entry. */
  lemma LabelsStartTheirEntries()
    ensures IsInfix("TypeScript", "TypeScript (--typescript)")
    ensures IsInfix("ESLint", "ESLint (--eslint)")
    ensures IsInfix("src/ directory", "src/ directory (--src-dir)")
    ensures IsInfix("App Router", "App Router (--app)")
    ensures IsInfix("Tailwind CSS", "Tailwind CSS (--tailwind)")
    ensures IsInfix("Import alias \"@/*\"", "Import alias \"@/*\" (--import-alias)")
  {
    PrefixIsInfix("TypeScript", "TypeScript (--typescript)");
    PrefixIsInfix("ESLint", "ESLint (--eslint)");
    PrefixIsInfix("src/ directory", "src/ directory (--src-dir)");
    PrefixIsInfix("App Router", "App Router (--app)");
    PrefixIsInfix("Tailwind CSS", "Tailwind CSS (--tailwind)");
    PrefixIsInfix("Import alias \"@/*\"", "Import alias \"@/*\" (--import-alias)");
  }
}
