/** `LogLevel` of `pyutils/logger.py`: seven integer levels, the maps between levels and their names,
    and the lookups that accept either. */
module LogLevels {
  import opened Wrappers
  import opened Text

  const VERBOSE := 9
  const DEBUG := 10
  const INFO := 20
  const SUCCESS := 21
  const WARNING := 30
  const ERROR := 40
  const CRITICAL := 50

  /** `level_map()`: each level to its canonical name. */
  const LevelMap: map<int, string> := map[
    VERBOSE := "VERBOSE", DEBUG := "DEBUG", INFO := "INFO", SUCCESS := "SUCCESS",
    WARNING := "WARNING", ERROR := "ERROR", CRITICAL := "CRITICAL"]

  /** `name_map()`: the canonical names and the aliases `SUC`, `WARN` and `ERR` to their levels. */
  const NameMap: map<string, int> := map[
    "VERBOSE" := VERBOSE, "DEBUG" := DEBUG, "INFO" := INFO, "SUC" := SUCCESS, "SUCCESS" := SUCCESS,
    "WARN" := WARNING, "WARNING" := WARNING, "ERROR" := ERROR, "ERR" := ERROR, "CRITICAL" := CRITICAL]

  /** The aliases: the names of `name_map()` that are not canonical. */
  const Aliases: set<string> := {"SUC", "WARN", "ERR"}

  /** An argument that may be a level or a name (`Union[str, int]`). */
  datatype LevelArg = Num(n: int) | Name(s: string)

  /** What `get_level` returns: a name (`str`) or a level (`int`). */
  datatype LevelOrName = LevelText(text: string) | LevelNumber(level: int)

  /** No name of `name_map()` starts with `L`, so no `"Level ..."` text is a name. */
  lemma LevelTextNotAName(s: string)
    requires |s| > 0 && s[0] == 'L'
    ensures s !in NameMap
  {
  }

  /** `level2name`: the canonical name of a level, which `name_map()` maps back to that level; any other
      integer becomes `"Level n"`, which is no name at all. */
  function Level2Name(n: int): (r: string)
    ensures n in LevelMap ==> r in NameMap && NameMap[r] == n && r !in Aliases
    ensures n !in LevelMap ==> r == "Level " + IntToString(n) && r !in NameMap
  {
    if n in LevelMap then LevelMap[n]
    else
      var r := "Level " + IntToString(n);
      LevelTextNotAName(r);
      r
  }

  /** `name2level`: `None` exactly for a string that is no name; a name gives a level whose canonical
      name it is, unless it is an alias. */
  function Name2Level(s: string): (r: Option<int>)
    ensures r.Some? <==> s in NameMap
    ensures r.Some? ==> r.value in LevelMap && (LevelMap[r.value] == s || s in Aliases)
  {
    if s in NameMap then Some(NameMap[s]) else None
  }

  /** `get_level`: an integer is looked up in `level_map()`, a string in `name_map()` without changing
      its case; what neither knows becomes `"Level x"`. */
  function GetLevel(arg: LevelArg): (r: LevelOrName)
    ensures arg.Num? ==> r == LevelText(Level2Name(arg.n))
    ensures arg.Name? && arg.s in NameMap ==> r == LevelNumber(Name2Level(arg.s).value)
    ensures arg.Name? && arg.s !in NameMap ==> r == LevelText("Level " + arg.s)
  {
    match arg
    case Num(n) =>
      if n in LevelMap then LevelText(LevelMap[n]) else LevelText("Level " + IntToString(n))
    case Name(s) =>
      if s in NameMap then LevelNumber(NameMap[s]) else LevelText("Level " + s)
  }

  /** `just_level`: an integer is returned as it is; a string is upper-cased and looked up. */
  function JustLevel(arg: LevelArg): (r: Option<int>)
    ensures arg.Num? ==> r == Some(arg.n)
    ensures arg.Name? ==> r == Name2Level(Upper(arg.s))
    ensures arg.Name? && r.Some? ==> r.value in LevelMap
  {
    match arg
    case Num(n) => Some(n)
    case Name(s) => Name2Level(Upper(s))
  }

  /** `just_name`: a string is upper-cased; an integer is named by `level2name`. */
  function JustName(arg: LevelArg): (r: string)
    ensures arg.Name? ==> r == Upper(arg.s)
    ensures arg.Num? ==> r == Level2Name(arg.n)
  {
    match arg
    case Name(s) => Upper(s)
    case Num(n) => Level2Name(n)
  }

  /** `name2level(level2name(n))` gives `n` back exactly for the seven levels, and `None` otherwise. */
  lemma Level2NameInverse(n: int)
    ensures Name2Level(Level2Name(n)) == if n in LevelMap then Some(n) else None
  {
  }

  /** Each name, alias or not, names the level whose canonical name `name_map()` maps to that same
      level. */
  lemma NamesAgree(s: string)
    requires s in NameMap
    ensures Name2Level(Level2Name(NameMap[s])) == Name2Level(s)
  {
  }

  /** `get_level` is its own inverse on the seven levels: the name it gives for a level is read back
      as that level. */
  lemma GetLevelRoundTrip(n: int)
    requires n in LevelMap
    ensures GetLevel(Name(GetLevel(Num(n)).text)) == LevelNumber(n)
  {
  }

  /** `s` spells `k` character by character in any case: each character of `s` upper-cases to the
      character of `k` at the same place. */
  predicate SameLetters(s: string, k: string) {
    |s| == |k| && forall i :: 0 <= i < |s| ==> UpperChar(s[i]) == [k[i]]
  }

  /** Upper-casing a string that spells `k` in any case gives `k`. */
  lemma {:induction false} UpperOfSameLetters(s: string, k: string)
    requires SameLetters(s, k)
    ensures Upper(s) == k
  {
    if s != [] {
      assert SameLetters(s[1..], k[1..]);
      UpperOfSameLetters(s[1..], k[1..]);
    }
  }

  /** `just_level` is case-insensitive: every spelling of a name in mixed case gives its level. */
  lemma JustLevelIgnoresCase(s: string, k: string)
    requires k in NameMap && SameLetters(s, k)
    ensures JustLevel(Name(s)) == Some(NameMap[k])
  {
    UpperOfSameLetters(s, k);
  }

  /** `just_level(just_name(x))` equals `just_level(x)` for every name and for every one of the seven
      levels. */
  lemma JustNameThenLevel(arg: LevelArg)
    requires arg.Num? ==> arg.n in LevelMap
    ensures JustLevel(Name(JustName(arg))) == JustLevel(arg)
  {
    match arg
    case Name(s) =>
      UpperIdempotent(s);
    case Num(n) =>
      NamesCapitals(n);
      UpperOfCapitals(LevelMap[n]);
  }

  /** The canonical names are written in capitals. */
  lemma NamesCapitals(n: int)
    requires n in LevelMap
    ensures AllCapitals(LevelMap[n])
  {
  }

  /** Upper-casing is `str.upper()` beyond ASCII as well: a dotless `\U{131}` or a sharp `\U{df}`
      reaches a name. */
  lemma JustLevelBeyondAscii()
    ensures JustLevel(Name("\U{131}nfo")) == Some(INFO)
    ensures JustLevel(Name("succe\U{df}")) == Some(SUCCESS)
  {
    UpperDotlessInfo();
    UpperSharpSuccess();
  }

  /** The dotless `\U{131}` upper-cases to `I`. */
  lemma UpperDotlessInfo()
    ensures Upper("\U{131}nfo") == "INFO"
  {
  }

  /** The sharp `\U{df}` upper-cases to `SS`. */
  lemma UpperSharpSuccess()
    ensures Upper("succe\U{df}") == "SUCCESS"
  {
    UpperConcat("succe", "\U{df}");
    assert "succe\U{df}" == "succe" + "\U{df}";
    assert Upper("\U{df}") == "SS";
    assert Upper("succe") == "SUCCE";
  }
}
