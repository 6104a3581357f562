/** `get_language` from utils/python_utils.py: a file name's extension looked up in a fixed table. */
module Language {
  import opened Paths

  /** The table of utils/python_utils.py:30-36; the lookup is exact, with no case folding. */
  const LanguageTable: map<string, string> :=
    map[".py" := "python", ".jac" := "jac", ".md" := "markdown", ".js" := "javascript", ".java" := "java"]

  const Unknown: string := "unknown"

  function GetLanguage(filename: string): (lang: string)
    ensures lang in LanguageTable.Values || lang == Unknown
    ensures lang == Unknown <==> Extension(filename) !in LanguageTable
    ensures Extension(filename) in LanguageTable ==> lang == LanguageTable[Extension(filename)]
  {
    var ext := Extension(filename);
    if ext in LanguageTable then LanguageTable[ext] else Unknown
  }

  /** The result is always one of six strings. */
  lemma SixLanguages(filename: string)
    ensures GetLanguage(filename) in {"python", "jac", "markdown", "javascript", "java", "unknown"}
  {
  }

  /** Each table entry is reached from any ordinary stem followed by its extension. */
  lemma LanguageOfExtension(stem: string, ext: string)
    requires ext in LanguageTable
    requires |stem| > 0 && stem[|stem| - 1] != '.' && stem[|stem| - 1] != '/'
    ensures GetLanguage(stem + ext) == LanguageTable[ext]
  {
    assert ext[0] == '.' && '.' !in ext[1..] && '/' !in ext;
    ExtensionOfSuffix(stem, ext);
  }

  /** A known language determines the extension it came from: the table is one-to-one. */
  lemma LanguageDeterminesExtension(f: string, g: string)
    requires GetLanguage(f) == GetLanguage(g) != Unknown
    ensures Extension(f) == Extension(g)
  {
  }

  /** Names with the same extension get the same language. */
  lemma SameExtensionSameLanguage(f: string, g: string)
    requires Extension(f) == Extension(g)
    ensures GetLanguage(f) == GetLanguage(g)
  {
  }

  /** Upper-case extensions are not folded: `"main.PY"` is unknown. */
  lemma UpperCaseIsUnknown()
    ensures GetLanguage("main.PY") == Unknown
  {
    ExtensionOfSuffix("main", ".PY");
    assert "main" + ".PY" == "main.PY";
    assert ".PY" !in LanguageTable by {
      assert ".PY" != ".py";
    }
  }

  /** A leading-dot name such as `".py"` and a dot-free name such as `"Makefile"` are unknown. */
  lemma NoExtensionIsUnknown()
    ensures GetLanguage(".py") == Unknown
    ensures GetLanguage("Makefile") == Unknown
  {
    LeadingDotNoExtension("py");
    NoDotNoExtension("Makefile");
  }
}
