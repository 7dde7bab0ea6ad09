/**
 The legacy library's toast categories: the six constants of `NiceToastType`
 in declaration order, their constant names, the human-readable name produced
 by replacing the first underscore with a space, and `valueOf`, which parses
 only an exact constant name.
 */
module NiceToastTypes {
  import opened Common

  datatype NiceToastType = Info | Success | Warning | Error | Delete | NoInternet

  /** `NiceToastType.entries`, in declaration order. */
  const Entries: seq<NiceToastType> := [Info, Success, Warning, Error, Delete, NoInternet]

  /** The position of a constant among the entries. */
  function Ordinal(t: NiceToastType): (i: nat)
    ensures i < |Entries| && Entries[i] == t
  {
    match t
    case Info => 0
    case Success => 1
    case Warning => 2
    case Error => 3
    case Delete => 4
    case NoInternet => 5
  }

  /** The Kotlin `name` of a constant: its identifier as declared. */
  function ConstantName(t: NiceToastType): (s: string)
    ensures |s| > 0 && 'A' <= s[0] <= 'Z'
  {
    match t
    case Info => "INFO"
    case Success => "SUCCESS"
    case Warning => "WARNING"
    case Error => "ERROR"
    case Delete => "DELETE"
    // "NO_INTERNET", written as words around the underscore so that
    // ReplaceFirstSplit applies to it as it stands
    case NoInternet => "NO" + "_" + "INTERNET"
  }

  /** Kotlin's `indexOf(c)`: the first index holding `c`, or -1 when there is none. */
  function IndexOf(s: string, c: char): (i: int)
    ensures -1 <= i < |s|
    ensures i >= 0 ==> s[i] == c
  {
    IndexOfFrom(s, c, 0)
  }

  /** The scan behind `indexOf`, from position `k` onwards. */
  function IndexOfFrom(s: string, c: char, k: nat): (i: int)
    requires k <= |s|
    ensures i == -1 || (k <= i < |s| && s[i] == c)
    decreases |s| - k
  {
    if k == |s| then -1
    else if s[k] == c then k
    else IndexOfFrom(s, c, k + 1)
  }

  /** The scan from `k` misses `c` exactly when `c` is absent from `s[k..]`, and otherwise stops at its first occurrence. */
  lemma {:induction false} IndexOfFromIsFirst(s: string, c: char, k: nat)
    requires k <= |s|
    ensures IndexOfFrom(s, c, k) == -1 <==> c !in s[k..]
    ensures IndexOfFrom(s, c, k) >= 0 ==> c !in s[k..IndexOfFrom(s, c, k)]
    decreases |s| - k
  {
    if k < |s| && s[k] != c {
      IndexOfFromIsFirst(s, c, k + 1);
      assert s[k..] == [s[k]] + s[k + 1..];
      if IndexOfFrom(s, c, k) >= 0 {
        assert s[k..IndexOfFrom(s, c, k)] == [s[k]] + s[k + 1..IndexOfFrom(s, c, k)];
      }
    }
  }

  /** `indexOf` finds the first occurrence, and returns -1 exactly when there is none. */
  lemma IndexOfIsFirst(s: string, c: char)
    ensures IndexOf(s, c) == -1 <==> c !in s
    ensures IndexOf(s, c) >= 0 ==> c !in s[..IndexOf(s, c)]
  {
    IndexOfFromIsFirst(s, c, 0);
    assert s[0..] == s;
  }

  /**
   Kotlin's `String.replaceFirst(from, to)` for one-character literals: find
   the first occurrence with `indexOf`, then replace that one character.
   */
  function ReplaceFirst(s: string, from: char, to: char): (r: string)
    ensures |r| == |s|
  {
    var i := IndexOf(s, from);
    if i < 0 then s else s[..i] + [to] + s[i + 1..]
  }

  /** Without an occurrence of `from`, the string comes back unchanged. */
  lemma ReplaceFirstWithoutOccurrence(s: string, from: char, to: char)
    requires from !in s
    ensures ReplaceFirst(s, from, to) == s
  {
    IndexOfIsFirst(s, from);
  }

  /**
   When `k` is the first index holding `from`, exactly that character becomes
   `to`; every other character, including later occurrences of `from`, is kept.
   */
  lemma ReplaceFirstRewritesFirstOnly(s: string, from: char, to: char, k: nat)
    requires k < |s| && s[k] == from && from !in s[..k]
    ensures ReplaceFirst(s, from, to) == s[..k] + [to] + s[k + 1..]
  {
    IndexOfIsFirst(s, from);
  }

  /** Replacing in `prefix + [from] + rest`, where `prefix` has no `from`, rewrites exactly that character. */
  lemma ReplaceFirstSplit(prefix: string, rest: string, from: char, to: char)
    requires from !in prefix
    ensures ReplaceFirst(prefix + [from] + rest, from, to) == prefix + [to] + rest
  {
    var s := prefix + [from] + rest;
    assert s[..|prefix|] == prefix;
    assert s[|prefix| + 1..] == rest;
    ReplaceFirstRewritesFirstOnly(s, from, to, |prefix|);
  }

  /** `NiceToastType.getName()`: the constant name with its first `_` turned into a space. */
  function GetName(t: NiceToastType): (r: string)
    ensures |r| == |ConstantName(t)|
  {
    ReplaceFirst(ConstantName(t), '_', ' ')
  }

  /** Scans `candidates` for the constant whose name is exactly `s`. */
  function FindByName(s: string, candidates: seq<NiceToastType>): (r: Option<NiceToastType>)
    ensures r.Some? ==> r.value in candidates && ConstantName(r.value) == s
    ensures r.None? ==> forall t :: t in candidates ==> ConstantName(t) != s
  {
    if |candidates| == 0 then None
    else if ConstantName(candidates[0]) == s then Some(candidates[0])
    else FindByName(s, candidates[1..])
  }

  /**
   `NiceToastType.valueOf(s)`: the constant named exactly `s` (case-sensitive);
   `None` stands for the `IllegalArgumentException` thrown otherwise.
   */
  function ValueOf(s: string): (r: Option<NiceToastType>)
    ensures r.Some? ==> ConstantName(r.value) == s
    ensures r.None? ==> forall t :: ConstantName(t) != s
  {
    FindByName(s, Entries)
  }

  /** Exactly six entries, pairwise distinct, covering every constant. */
  lemma EntriesAreTheSixConstants()
    ensures |Entries| == 6
    ensures forall i, j :: 0 <= i < j < |Entries| ==> Entries[i] != Entries[j]
    ensures forall t :: Ordinal(t) < |Entries| && Entries[Ordinal(t)] == t
    ensures forall t, u :: Ordinal(t) == Ordinal(u) ==> t == u
  {
  }

  /** Only `NO_INTERNET` has an underscore in its name, and not in front. */
  lemma UnderscoreOnlyInNoInternet(t: NiceToastType)
    ensures '_' in ConstantName(t) <==> t == NoInternet
    ensures ConstantName(t)[0] != '_'
  {
    var n := ConstantName(t);
    if t == NoInternet {
      assert n[2] == '_';
    }
  }

  /** Constants without an underscore keep their name under `getName()`. */
  lemma GetNameKeepsPlainNames(t: NiceToastType)
    requires t != NoInternet
    ensures GetName(t) == ConstantName(t)
  {
    UnderscoreOnlyInNoInternet(t);
    ReplaceFirstWithoutOccurrence(ConstantName(t), '_', ' ');
  }

  /** `getName()` of `NO_INTERNET` is "NO INTERNET". */
  lemma GetNameOfNoInternet()
    ensures GetName(NoInternet) == "NO INTERNET"
  {
    ReplaceFirstSplit("NO", "INTERNET", '_', ' ');
  }

  /** `getName()` over every constant: NO_INTERNET gets its space, every other name is kept. */
  lemma GetNameTable(t: NiceToastType)
    ensures GetName(t) == if t == NoInternet then "NO INTERNET" else ConstantName(t)
  {
    if t == NoInternet {
      GetNameOfNoInternet();
    } else {
      GetNameKeepsPlainNames(t);
    }
  }

  /** The six human-readable names. */
  lemma GetNameValues()
    ensures GetName(Info) == "INFO"
    ensures GetName(Success) == "SUCCESS"
    ensures GetName(Warning) == "WARNING"
    ensures GetName(Error) == "ERROR"
    ensures GetName(Delete) == "DELETE"
    ensures GetName(NoInternet) == "NO INTERNET"
  {
    ReplaceFirstSplit("NO", "INTERNET", '_', ' ');
    GetNameKeepsPlainNames(Info);
    GetNameKeepsPlainNames(Success);
    GetNameKeepsPlainNames(Warning);
    GetNameKeepsPlainNames(Error);
    GetNameKeepsPlainNames(Delete);
    GetNameOfNoInternet();
  }

  /** `getName()` keeps the length of the name and never yields a blank title. */
  lemma GetNameIsNotBlank(t: NiceToastType)
    ensures |GetName(t)| == |ConstantName(t)|
    ensures !IsBlank(GetName(t))
  {
    var n := ConstantName(t);
    var r := GetName(t);
    UnderscoreOnlyInNoInternet(t);
    if t == NoInternet {
      ReplaceFirstRewritesFirstOnly(n, '_', ' ', 2);
    } else {
      ReplaceFirstWithoutOccurrence(n, '_', ' ');
    }
    assert r[0] == n[0];
    assert 'A' <= r[0] <= 'Z';
  }

  /** Parsing a constant's name gives the constant back. */
  lemma {:induction false} ValueOfConstantName(t: NiceToastType)
    ensures ValueOf(ConstantName(t)) == Some(t)
  {
    var r := ValueOf(ConstantName(t));
    assert r.Some? ==> ConstantName(r.value) == ConstantName(t);
  }

  /** `valueOf` rejects unknown, lower-case, empty and space-separated names. */
  lemma ValueOfRejects()
    ensures ValueOf("INVALID") == None
    ensures ValueOf("error") == None
    ensures ValueOf("") == None
    ensures ValueOf("NO INTERNET") == None
    ensures ValueOf(GetName(NoInternet)) == None
  {
    forall t: NiceToastType
      ensures ConstantName(t) != "NO INTERNET"
    {
      if t == NoInternet {
        assert ConstantName(t)[2] != "NO INTERNET"[2];
      }
    }
    forall t: NiceToastType
      ensures ConstantName(t) != "error" && ConstantName(t) != "INVALID"
    {
      assert 'A' <= ConstantName(t)[0] <= 'Z';
      assert |ConstantName(t)| != |"INVALID"| || ConstantName(t)[0] != 'I';
    }
    GetNameOfNoInternet();
  }
}
