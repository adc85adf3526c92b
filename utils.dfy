/** The judge's language table and the filter that chooses which solution files of a folder
    still need submitting (codefun_autosubmit/core/utils.py). The folder listing and the
    list of accepted problem codes are inputs. */
module Utils {
  import opened Wrappers
  import opened Strings
  import opened Seqs

  // ---- languages and extensions -----------------------------------------------------

  const LanguageMap: map<string, string> :=
    map["C++" := "cpp", "Python3" := "py", "Pascal" := "pas", "NAsm" := "s"]

  const ExtensionMap: map<string, string> :=
    map["cpp" := "C++", "py" := "Python3", "pas" := "Pascal", "s" := "NAsm"]

  /** `get_extension`: the file extension of one of the four judge languages; any other
      name raises "Language not found". */
  function GetExtension(language: string): (r: Result<string, string>)
    ensures r.Success? <==> language in {"C++", "Python3", "Pascal", "NAsm"}
    ensures r.Failure? ==> r.error == "Language not found"
  {
    if language in LanguageMap then Success(LanguageMap[language])
    else Failure("Language not found")
  }

  /** `get_language`: the judge language of one of the four extensions; any other
      extension raises "Not a valid language". */
  function GetLanguage(extension: string): (r: Result<string, string>)
    ensures r.Success? <==> extension in {"cpp", "py", "pas", "s"}
    ensures r.Failure? ==> r.error == "Not a valid language"
  {
    if extension in ExtensionMap then Success(ExtensionMap[extension])
    else Failure("Not a valid language")
  }

  /** Every known language comes back from its extension. */
  lemma LanguageRoundTrip(language: string)
    requires GetExtension(language).Success?
    ensures GetLanguage(GetExtension(language).value) == Success(language)
  {
  }

  /** Every known extension comes back from its language. */
  lemma ExtensionRoundTrip(extension: string)
    requires GetLanguage(extension).Success?
    ensures GetExtension(GetLanguage(extension).value) == Success(extension)
  {
  }

  /** The two tables are mutually inverse: neither maps two keys to the same value. */
  lemma TablesInverse()
    ensures forall l :: l in LanguageMap ==> LanguageMap[l] in ExtensionMap && ExtensionMap[LanguageMap[l]] == l
    ensures forall e :: e in ExtensionMap ==> ExtensionMap[e] in LanguageMap && LanguageMap[ExtensionMap[e]] == e
  {
  }

  /** The pairs the unit tests of the two lookups check, and the two names they reject. */
  lemma KnownPairs()
    ensures GetExtension("C++") == Success("cpp") && GetExtension("Python3") == Success("py")
    ensures GetExtension("Pascal") == Success("pas") && GetExtension("NAsm") == Success("s")
    ensures GetLanguage("cpp") == Success("C++") && GetLanguage("py") == Success("Python3")
    ensures GetLanguage("pas") == Success("Pascal") && GetLanguage("s") == Success("NAsm")
    ensures GetExtension("InvalidLanguage").Failure? && GetLanguage("invalid").Failure?
  {
  }

  // ---- the submission-list filter -----------------------------------------------------

  /** `supported_exts` of `get_loop_list`: exactly the extensions `get_language` knows. */
  const SupportedExts: seq<string> := ["cpp", "py", "pas", "s"]

  lemma SupportedExtsAreKnown(e: string)
    ensures e in SupportedExts <==> GetLanguage(e).Success?
  {
  }

  /** `filename.split(".")[0]`: the text before the first dot, or the whole name. */
  function ProblemName(filename: string): string
  {
    Split(filename, '.')[0]
  }

  /** The problem name is the longest dot-free prefix of the file name: it is followed by the
      first dot when there is one, and is the whole name otherwise. */
  lemma ProblemNameMeaning(filename: string)
    ensures var r := ProblemName(filename);
      && |r| <= |filename| && filename[..|r|] == r && '.' !in r
      && ('.' in filename ==> |r| < |filename| && filename[|r|] == '.')
      && ('.' !in filename ==> r == filename)
  {
    SplitFirstPiece(filename, '.');
  }

  /** `filename.split(".")[-1] if "." in filename else ""`: the text after the last dot. */
  function Extension(filename: string): string
  {
    if '.' in filename then Last(Split(filename, '.')) else ""
  }

  /** The extension is empty without a dot, and is otherwise the dot-free text after the last
      dot. */
  lemma ExtensionMeaning(filename: string)
    ensures '.' !in filename ==> Extension(filename) == ""
    ensures '.' in filename ==> |Extension(filename)| < |filename|
    ensures '.' in filename ==> filename[|filename| - |Extension(filename)| - 1] == '.'
    ensures '.' in filename ==> filename[|filename| - |Extension(filename)|..] == Extension(filename)
    ensures '.' !in Extension(filename)
  {
    if '.' in filename {
      SplitLastPiece(filename, '.');
    }
  }

  /** A file the loop would add if its problem were not already taken: not a "pass…" file,
      a supported extension, and a problem not in the accepted list. */
  predicate Eligible(filename: string, aclist: seq<string>)
  {
    && !StartsWith(filename, "pass")
    && Extension(filename) in SupportedExts
    && ProblemName(filename) !in aclist
  }

  /** The problems a `sublist` already covers, which is what `processed_problems` holds. */
  function Names(sublist: seq<string>): set<string>
  {
    set f | f in sublist :: ProblemName(f)
  }

  lemma NamesAppend(sublist: seq<string>, f: string)
    ensures Names(sublist + [f]) == Names(sublist) + {ProblemName(f)}
  {
    assert forall g :: g in sublist + [f] <==> g in sublist || g == f;
  }

  /** The loop adds a file exactly when it is eligible and its problem is not yet covered. */
  predicate Takes(sublist: seq<string>, filename: string, aclist: seq<string>)
  {
    Eligible(filename, aclist) && ProblemName(filename) !in Names(sublist)
  }

  /** `sublist` after the loop has seen the first `n` names of the listing. */
  function PickedUpTo(listing: seq<string>, n: nat, aclist: seq<string>): seq<string>
    requires n <= |listing|
  {
    if n == 0 then []
    else
      var prev := PickedUpTo(listing, n - 1, aclist);
      prev + if Takes(prev, listing[n - 1], aclist) then [listing[n - 1]] else []
  }

  /** What `get_loop_list` returns for a listing and an accepted list. */
  function LoopList(listing: seq<string>, aclist: seq<string>): seq<string>
  {
    PickedUpTo(listing, |listing|, aclist)
  }

  /** The filter loop of `get_loop_list`, with the skips written as in the source. */
  method GetLoopList(listing: seq<string>, aclist: seq<string>) returns (sublist: seq<string>)
    ensures sublist == LoopList(listing, aclist)
  {
    sublist := [];
    var processedProblems: set<string> := {};
    for i := 0 to |listing|
      invariant sublist == PickedUpTo(listing, i, aclist)
      invariant processedProblems == Names(sublist)
    {
      var filename := listing[i];
      if StartsWith(filename, "pass") {
        continue;
      }
      var problemName := Split(filename, '.')[0];
      if problemName in processedProblems {
        continue;
      }
      var fileExt := if '.' in filename then Split(filename, '.')[|Split(filename, '.')| - 1] else "";
      if fileExt in SupportedExts && problemName !in aclist {
        NamesAppend(sublist, filename);
        sublist := sublist + [filename];
        processedProblems := processedProblems + {problemName};
      }
    }
  }

  // ---- what the filter promises -------------------------------------------------------

  lemma {:induction false} PickedUpToKeepsOrder(listing: seq<string>, n: nat, aclist: seq<string>)
    requires n <= |listing|
    ensures IsSubsequence(PickedUpTo(listing, n, aclist), listing[..n])
  {
    if n == 0 {
      assert IsSubsequence(listing[..0], listing[..0]);
    } else {
      var prev := PickedUpTo(listing, n - 1, aclist);
      PickedUpToKeepsOrder(listing, n - 1, aclist);
      var keep := Takes(prev, listing[n - 1], aclist);
      SubsequenceAppend(prev, listing[..n - 1], listing[n - 1], keep);
      assert PickedUpTo(listing, n, aclist) == if keep then prev + [listing[n - 1]] else prev;
      assert listing[..n - 1] + [listing[n - 1]] == listing[..n];
    }
  }

  /** The result is the listing with some names left out and the rest in listing order. */
  lemma LoopListKeepsOrder(listing: seq<string>, aclist: seq<string>)
    ensures IsSubsequence(LoopList(listing, aclist), listing)
  {
    PickedUpToKeepsOrder(listing, |listing|, aclist);
    assert listing[..|listing|] == listing;
  }

  lemma {:induction false} PickedUpToEligible(listing: seq<string>, n: nat, aclist: seq<string>)
    requires n <= |listing|
    ensures forall f :: f in PickedUpTo(listing, n, aclist) ==> Eligible(f, aclist)
  {
    if n > 0 {
      PickedUpToEligible(listing, n - 1, aclist);
    }
  }

  /** Every returned file is not a "pass…" file, has a dot, carries a supported extension,
      and belongs to a problem that is not accepted yet. */
  lemma LoopListEligible(listing: seq<string>, aclist: seq<string>)
    ensures forall f :: f in LoopList(listing, aclist) ==>
      && !StartsWith(f, "pass")
      && '.' in f
      && Extension(f) in SupportedExts
      && ProblemName(f) !in aclist
  {
    PickedUpToEligible(listing, |listing|, aclist);
  }

  /** No two files of `sublist` belong to the same problem. */
  predicate DistinctProblems(sublist: seq<string>)
  {
    forall i, j :: 0 <= i < j < |sublist| ==> ProblemName(sublist[i]) != ProblemName(sublist[j])
  }

  lemma DistinctAppend(sublist: seq<string>, f: string)
    requires DistinctProblems(sublist) && ProblemName(f) !in Names(sublist)
    ensures DistinctProblems(sublist + [f])
  {
    var r := sublist + [f];
    forall i, j | 0 <= i < j < |r|
      ensures ProblemName(r[i]) != ProblemName(r[j])
    {
      assert r[i] == sublist[i] && sublist[i] in sublist;
      if j < |sublist| {
        assert r[j] == sublist[j];
      }
    }
  }

  lemma {:induction false} PickedUpToDistinct(listing: seq<string>, n: nat, aclist: seq<string>)
    requires n <= |listing|
    ensures DistinctProblems(PickedUpTo(listing, n, aclist))
  {
    if n > 0 {
      var prev := PickedUpTo(listing, n - 1, aclist);
      PickedUpToDistinct(listing, n - 1, aclist);
      if Takes(prev, listing[n - 1], aclist) {
        DistinctAppend(prev, listing[n - 1]);
      } else {
        assert PickedUpTo(listing, n, aclist) == prev;
      }
    }
  }

  /** No two returned files belong to the same problem. */
  lemma LoopListDistinct(listing: seq<string>, aclist: seq<string>)
    ensures var r := LoopList(listing, aclist);
      forall i, j :: 0 <= i < j < |r| ==> ProblemName(r[i]) != ProblemName(r[j])
  {
    PickedUpToDistinct(listing, |listing|, aclist);
    assert LoopList(listing, aclist) == PickedUpTo(listing, |listing|, aclist);
  }

  /** The first eligible file of a problem among the first `n` names of the listing. */
  function FirstEligible(listing: seq<string>, n: nat, aclist: seq<string>, name: string): Option<string>
    requires n <= |listing|
  {
    if n == 0 then None
    else match FirstEligible(listing, n - 1, aclist, name)
      case Some(f) => Some(f)
      case None =>
        var f := listing[n - 1];
        if Eligible(f, aclist) && ProblemName(f) == name then Some(f) else None
  }

  /** `FirstEligible` is an eligible file of that problem, and it is absent exactly when no
      such file is among the first `n` names. */
  lemma {:induction false} FirstEligibleMeaning(listing: seq<string>, n: nat, aclist: seq<string>, name: string)
    requires n <= |listing|
    ensures var r := FirstEligible(listing, n, aclist, name);
      && (r.Some? ==> r.value in listing[..n] && Eligible(r.value, aclist) && ProblemName(r.value) == name)
      && (r.None? <==> forall k :: 0 <= k < n ==> !(Eligible(listing[k], aclist) && ProblemName(listing[k]) == name))
  {
    if n > 0 {
      FirstEligibleMeaning(listing, n - 1, aclist, name);
      assert listing[..n] == listing[..n - 1] + [listing[n - 1]];
    }
  }

  lemma {:induction false} PickedUpToFirst(listing: seq<string>, n: nat, aclist: seq<string>)
    requires n <= |listing|
    ensures var r := PickedUpTo(listing, n, aclist);
      && (forall name :: name in Names(r) <==> FirstEligible(listing, n, aclist, name).Some?)
      && (forall f :: f in r ==> FirstEligible(listing, n, aclist, ProblemName(f)) == Some(f))
  {
    if n > 0 {
      var prev := PickedUpTo(listing, n - 1, aclist);
      var g := listing[n - 1];
      PickedUpToFirst(listing, n - 1, aclist);
      if Takes(prev, g, aclist) {
        NamesAppend(prev, g);
        assert forall f :: f in prev + [g] <==> f in prev || f == g;
      }
    }
  }

  /** The returned files are exactly one per problem that has an eligible file, and that one
      is the problem's first eligible file in listing order. A name goes into
      `processed_problems` only when its file is added, so a rejected file never keeps a
      later eligible file of the same problem out. */
  lemma LoopListPicksFirst(listing: seq<string>, aclist: seq<string>)
    ensures var r := LoopList(listing, aclist);
      && (forall name :: name in Names(r) <==> FirstEligible(listing, |listing|, aclist, name).Some?)
      && (forall f :: f in r ==> FirstEligible(listing, |listing|, aclist, ProblemName(f)) == Some(f))
  {
    PickedUpToFirst(listing, |listing|, aclist);
  }
}
