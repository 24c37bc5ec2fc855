/**
 * The batch download: which envelopes are kept, how each saved file is
 * named, what is recorded for each envelope, and whether the run counts as
 * a success. The document service and the file system are inputs: for each
 * envelope the model is told what fetching its documents and reading the
 * saved file back gave.
 */
module Downloads {
  import opened Wrappers
  import opened Text
  import opened Configuration
  import opened Report

  // ---------------------------------------------------------------------
  // Envelope selection
  // ---------------------------------------------------------------------

  /** An envelope as the listing returns it; `purgeState` is None when the service sends null. */
  datatype Envelope = Envelope(envelopeId: string, emailSubject: string, purgeState: Option<string>)

  /** The listing: the reported result-set size and the envelopes. */
  datatype EnvelopesInformation = EnvelopesInformation(resultSetSize: string, envelopes: seq<Envelope>)

  /** Documents can still be fetched: no purge state, an empty one, or "unpurged". */
  predicate IsUnpurged(e: Envelope)
  {
    e.purgeState.None? || e.purgeState.value == "" || e.purgeState.value == "unpurged"
  }

  /** The unpurged envelopes, in listing order. */
  function Unpurged(envelopes: seq<Envelope>): (r: seq<Envelope>)
    ensures |r| <= |envelopes|
    ensures forall k :: 0 <= k < |r| ==> IsUnpurged(r[k]) && r[k] in envelopes
    ensures forall k :: 0 <= k < |envelopes| && IsUnpurged(envelopes[k]) ==> envelopes[k] in r
  {
    if envelopes == [] then []
    else (if IsUnpurged(envelopes[0]) then [envelopes[0]] else []) + Unpurged(envelopes[1..])
  }

  /** Filtering a concatenation filters each part, so the kept envelopes stay in order. */
  lemma {:induction false} UnpurgedAppend(a: seq<Envelope>, b: seq<Envelope>)
    ensures Unpurged(a + b) == Unpurged(a) + Unpurged(b)
    decreases |a|
  {
    if a != [] {
      assert (a + b)[1..] == a[1..] + b;
      UnpurgedAppend(a[1..], b);
    } else {
      assert a + b == b;
    }
  }

  /**
   * The outcome of listing envelopes: the total and unpurged counts the
   * report records, if it got that far, and the envelopes to download or
   * the message of the exception that ends the run.
   */
  datatype Selection = Selection(total: Option<string>, unpurged: Option<nat>, envelopes: Result<seq<Envelope>, string>)

  function SelectEnvelopes(info: Option<EnvelopesInformation>): (s: Selection)
    ensures info.None? || info.value.resultSetSize == "0" ==>
      s == Selection(None, None, Failure("No envelopes were found."))
    ensures info.Some? && info.value.resultSetSize != "0" ==>
      s.total == Some(info.value.resultSetSize) && s.unpurged == Some(|Unpurged(info.value.envelopes)|)
    ensures s.envelopes.Success? <==>
      info.Some? && info.value.resultSetSize != "0" && Unpurged(info.value.envelopes) != []
    ensures s.envelopes.Success? ==> s.envelopes.value == Unpurged(info.value.envelopes)
    ensures info.Some? && info.value.resultSetSize != "0" && s.envelopes.Failure? ==>
      s.envelopes.error == "No unpurged envelopes found"
  {
    if info.None? || info.value.resultSetSize == "0" then
      Selection(None, None, Failure("No envelopes were found."))
    else
      var kept := Unpurged(info.value.envelopes);
      Selection(Some(info.value.resultSetSize), Some(|kept|),
        if |kept| == 0 then Failure("No unpurged envelopes found") else Success(kept))
  }

  // ---------------------------------------------------------------------
  // File names
  // ---------------------------------------------------------------------

  /** The subject with every invalid file-name character removed. */
  function StripInvalid(s: string, invalid: set<char>): (r: string)
    ensures |r| <= |s|
    ensures forall k :: 0 <= k < |r| ==> r[k] !in invalid && r[k] in s
    ensures (forall k :: 0 <= k < |s| ==> s[k] !in invalid) ==> r == s
  {
    if s == [] then []
    else (if s[0] in invalid then [] else [s[0]]) + StripInvalid(s[1..], invalid)
  }

  lemma {:induction false} StripInvalidAppend(a: string, b: string, invalid: set<char>)
    ensures StripInvalid(a + b, invalid) == StripInvalid(a, invalid) + StripInvalid(b, invalid)
    decreases |a|
  {
    if a != [] {
      var head := if a[0] in invalid then [] else [a[0]];
      assert (a + b)[0] == a[0] && (a + b)[1..] == a[1..] + b;
      assert StripInvalid(a + b, invalid) == head + StripInvalid(a[1..] + b, invalid);
      StripInvalidAppend(a[1..], b, invalid);
      assert StripInvalid(a, invalid) == head + StripInvalid(a[1..], invalid);
      SnocAssocHead(head, StripInvalid(a[1..], invalid), StripInvalid(b, invalid));
    } else {
      assert a + b == b;
    }
  }

  lemma SnocAssocHead<T>(a: seq<T>, b: seq<T>, c: seq<T>)
    ensures a + (b + c) == (a + b) + c
  {
  }

  /** ".pdf" for the combined download mode, ".zip" for any other. */
  function Extension(mode: string): (ext: string)
    ensures ext == ".pdf" <==> mode == "combined"
    ensures ext == ".pdf" || ext == ".zip"
  {
    if mode == "combined" then ".pdf" else ".zip"
  }

  predicate HasDocumentSuffix(name: string)
  {
    EndsWith(name, ".pdf") || EndsWith(name, ".zip")
  }

  /** The name with one trailing ".pdf" or ".zip" removed. */
  function BaseName(name: string): (b: string)
    ensures HasDocumentSuffix(name) ==> |b| == |name| - 4 && name == b + name[|name| - 4..]
    ensures !HasDocumentSuffix(name) ==> b == name
  {
    if HasDocumentSuffix(name) then name[..|name| - 4] else name
  }

  /** Only one suffix is removed, and either suffix leaves the same stem. */
  lemma SuffixesShareBase(stem: string)
    ensures BaseName(stem + ".pdf") == stem && BaseName(stem + ".zip") == stem
  {
    assert (stem + ".pdf")[|stem|..] == ".pdf";
    assert (stem + ".zip")[|stem|..] == ".zip";
    assert (stem + ".pdf")[..|stem|] == stem;
    assert (stem + ".zip")[..|stem|] == stem;
  }

  /** The key the saved name is counted under. */
  function SavedBase(subject: string, invalid: set<char>): string
  {
    BaseName(StripInvalid(subject, invalid))
  }

  /**
   * Subjects that differ only in a trailing ".pdf" or ".zip" share one key,
   * provided the suffix characters are valid in file names.
   */
  lemma SubjectsShareCounter(stem: string, invalid: set<char>)
    requires forall c :: c in ".pdfzip" ==> c !in invalid
    ensures SavedBase(stem + ".pdf", invalid) == StripInvalid(stem, invalid)
    ensures SavedBase(stem + ".zip", invalid) == StripInvalid(stem, invalid)
  {
    assert forall k :: 0 <= k < 4 ==> ".pdf"[k] in ".pdfzip" && ".zip"[k] in ".pdfzip";
    SuffixShares(stem, ".pdf", invalid);
    SuffixShares(stem, ".zip", invalid);
  }

  lemma SuffixShares(stem: string, suffix: string, invalid: set<char>)
    requires suffix == ".pdf" || suffix == ".zip"
    requires forall k :: 0 <= k < |suffix| ==> suffix[k] !in invalid
    ensures SavedBase(stem + suffix, invalid) == StripInvalid(stem, invalid)
  {
    StripInvalidAppend(stem, suffix, invalid);
    assert StripInvalid(suffix, invalid) == suffix;
    SuffixesShareBase(StripInvalid(stem, invalid));
  }

  /** The name of a repeat: base, the repeat number in parentheses, extension. */
  function Numbered(base: string, n: nat, ext: string): string
  {
    base + "(" + NatString(n) + ")" + ext
  }

  lemma NumberedInjective(base: string, ext: string, a: nat, b: nat)
    requires Numbered(base, a, ext) == Numbered(base, b, ext)
    ensures a == b
  {
    var na, nb := NatString(a), NatString(b);
    var x, y := Numbered(base, a, ext), Numbered(base, b, ext);
    assert |na| == |nb|;
    assert x[|base| + 1..|base| + 1 + |na|] == na;
    assert y[|base| + 1..|base| + 1 + |nb|] == nb;
    NatStringInjective(a, b);
  }

  /** The name for the `n`-th repeat of a base (0: the first use). */
  function SavedName(base: string, n: nat, ext: string): (name: string)
  {
    if n == 0 then base + ext else Numbered(base, n, ext)
  }

  /** Different repeat numbers of one base give different names. */
  lemma SavedNamesDistinct(base: string, ext: string, a: nat, b: nat)
    requires a != b
    ensures SavedName(base, a, ext) != SavedName(base, b, ext)
  {
    if a != 0 && b != 0 && SavedName(base, a, ext) == SavedName(base, b, ext) {
      NumberedInjective(base, ext, a, b);
    }
  }

  /** The name claimed for `base` and the counters afterwards. */
  function NextName(counts: map<string, nat>, base: string, ext: string): (string, map<string, nat>)
  {
    if base !in counts then (base + ext, counts[base := 0])
    else (Numbered(base, counts[base] + 1, ext), counts[base := counts[base] + 1])
  }

  /** The per-base counters of the saved names. */
  class FileNameRegistry {
    var counts: map<string, nat>

    constructor ()
      ensures counts == map[]
    {
      counts := map[];
    }

    /**
     * The first use of a base gets `base + ext` and records 0; a repeat gets
     * the base's counter plus one in parentheses and raises that counter.
     * No other key changes.
     */
    method Claim(base: string, ext: string) returns (name: string)
      modifies this
      ensures base !in old(counts) ==> name == base + ext && counts == old(counts)[base := 0]
      ensures base in old(counts) ==>
        name == Numbered(base, old(counts)[base] + 1, ext) && counts == old(counts)[base := old(counts)[base] + 1]
      ensures (name, counts) == NextName(old(counts), base, ext)
    {
      if base !in counts {
        counts := counts[base := 0];
        name := base + ext;
      } else {
        var n := counts[base] + 1;
        counts := counts[base := n];
        name := Numbered(base, n, ext);
      }
    }
  }

  /**
   * The names given to a sequence of claims from empty counters, with ""
   * for an envelope whose documents could not be fetched (None), and the
   * counters afterwards.
   */
  function Naming(bases: seq<Option<string>>, ext: string): (r: (seq<string>, map<string, nat>))
    ensures |r.0| == |bases|
    decreases |bases|
  {
    if bases == [] then ([], map[])
    else
      var prev := Naming(bases[..|bases| - 1], ext);
      match bases[|bases| - 1]
      case None => (prev.0 + [""], prev.1)
      case Some(b) =>
        var next := NextName(prev.1, b, ext);
        (prev.0 + [next.0], next.1)
  }

  /** How many claims of `bases` are for `b`. */
  function Occurrences(bases: seq<Option<string>>, b: string): nat
    decreases |bases|
  {
    if bases == [] then 0
    else Occurrences(bases[..|bases| - 1], b) + (if bases[|bases| - 1] == Some(b) then 1 else 0)
  }

  lemma {:induction false} OccurrencesAppend(a: seq<Option<string>>, c: seq<Option<string>>, b: string)
    ensures Occurrences(a + c, b) == Occurrences(a, b) + Occurrences(c, b)
    decreases |c|
  {
    if c == [] {
      assert a + c == a;
    } else {
      assert (a + c)[..|a + c| - 1] == a + c[..|c| - 1];
      OccurrencesAppend(a, c[..|c| - 1], b);
    }
  }

  /** A base has a counter exactly when it was claimed, and the counter is its repeat count. */
  lemma {:induction false} NamingCounts(bases: seq<Option<string>>, ext: string, b: string)
    ensures b in Naming(bases, ext).1 <==> Occurrences(bases, b) > 0
    ensures b in Naming(bases, ext).1 ==> Naming(bases, ext).1[b] == Occurrences(bases, b) - 1
    decreases |bases|
  {
    if bases != [] {
      NamingCounts(bases[..|bases| - 1], ext, b);
    }
  }

  /**
   * The claim at position `k` for base `b` gets the name with repeat number
   * equal to how often `b` was claimed before it.
   */
  lemma {:induction false} NamingNames(bases: seq<Option<string>>, ext: string, k: nat)
    requires k < |bases|
    ensures bases[k].None? ==> Naming(bases, ext).0[k] == ""
    ensures bases[k].Some? ==>
      Naming(bases, ext).0[k] == SavedName(bases[k].value, Occurrences(bases[..k], bases[k].value), ext)
    decreases |bases|
  {
    var init := bases[..|bases| - 1];
    if k == |bases| - 1 {
      assert bases[..k] == init;
      if bases[k].Some? {
        NamingCounts(init, ext, bases[k].value);
      }
    } else {
      assert init[k] == bases[k] && init[..k] == bases[..k];
      NamingNames(init, ext, k);
    }
  }

  /** A later position has seen strictly more claims of a base claimed at an earlier one. */
  lemma OccurrencesGrow(bases: seq<Option<string>>, b: string, j: nat, k: nat)
    requires j < k <= |bases| && bases[j] == Some(b)
    ensures Occurrences(bases[..j], b) < Occurrences(bases[..k], b)
  {
    assert bases[..j + 1][..j] == bases[..j];
    assert Occurrences(bases[..j + 1], b) == Occurrences(bases[..j], b) + 1;
    assert bases[..k] == bases[..j + 1] + bases[j + 1..k];
    OccurrencesAppend(bases[..j + 1], bases[j + 1..k], b);
  }

  /** Two claims of the same base never get the same name. */
  lemma NamesDistinctPerBase(bases: seq<Option<string>>, ext: string, j: nat, k: nat)
    requires j < k < |bases| && bases[j].Some? && bases[j] == bases[k]
    ensures Naming(bases, ext).0[j] != Naming(bases, ext).0[k]
  {
    var b := bases[j].value;
    NamingNames(bases, ext, j);
    NamingNames(bases, ext, k);
    OccurrencesGrow(bases, b, j, k);
    SavedNamesDistinct(b, ext, Occurrences(bases[..j], b), Occurrences(bases[..k], b));
  }

  /**
   * Names are only distinct per base: a second "a" and a first "a(1)" are
   * both saved as "a(1).pdf".
   */
  lemma SavedNamesCanCollide()
    ensures Naming([Some("a"), Some("a(1)"), Some("a")], ".pdf").0 == ["a.pdf", "a(1).pdf", "a(1).pdf"]
  {
    var one, two, three := [Some("a")], [Some("a"), Some("a(1)")], [Some("a"), Some("a(1)"), Some("a")];
    assert NatString(1) == "1";
    assert one[..0] == [] && two[..1] == one && three[..2] == two;
    var m0: map<string, nat> := map[];
    var c1: map<string, nat> := map["a" := 0];
    var c2: map<string, nat> := c1["a(1)" := 0];
    assert Naming([], ".pdf") == ([], m0);
    assert "a" + ".pdf" == "a.pdf" && "a" !in m0 && m0["a" := 0] == c1;
    assert NextName(m0, "a", ".pdf") == ("a.pdf", c1);
    assert one[|one| - 1] == Some("a") && one[..|one| - 1] == [];
    assert Naming(one, ".pdf") == (Naming([], ".pdf").0 + [NextName(m0, "a", ".pdf").0], NextName(m0, "a", ".pdf").1);
    assert [] + ["a.pdf"] == ["a.pdf"];
    assert Naming(one, ".pdf").0 == ["a.pdf"] && Naming(one, ".pdf").1 == c1;
    assert "a(1)" + ".pdf" == "a(1).pdf" && "a(1)" !in c1;
    assert NextName(c1, "a(1)", ".pdf") == ("a(1).pdf", c2);
    assert two[|two| - 1] == Some("a(1)") && two[..|two| - 1] == one;
    assert ["a.pdf"] + ["a(1).pdf"] == ["a.pdf", "a(1).pdf"];
    assert Naming(two, ".pdf").0 == ["a.pdf", "a(1).pdf"] && Naming(two, ".pdf").1 == c2;
    assert "a" in c2 && c2["a"] == 0;
    assert Numbered("a", 1, ".pdf") == "a(1).pdf";
    assert NextName(c2, "a", ".pdf").0 == "a(1).pdf";
  }


  // ---------------------------------------------------------------------
  // The download loop
  // ---------------------------------------------------------------------

  /**
   * One envelope of the loop with what the outside world gave for it: the
   * length of the documents response or the message of the exception
   * fetching them raised, and the length of the saved file read back or the
   * message of the exception reading it raised.
   */
  datatype Attempt = Attempt(envelope: Envelope, response: Result<nat, string>, readBack: Result<nat, string>)

  function BaseOf(a: Attempt, invalid: set<char>): Option<string>
  {
    if a.response.Success? then Some(SavedBase(a.envelope.emailSubject, invalid)) else None
  }

  /** The claims the attempts make on the name counters, in order. */
  function Bases(attempts: seq<Attempt>, invalid: set<char>): (r: seq<Option<string>>)
    ensures |r| == |attempts|
  {
    seq(|attempts|, k requires 0 <= k < |attempts| => BaseOf(attempts[k], invalid))
  }

  const Unverifiable := "File cannot be verified."

  /**
   * The entry recorded for an attempt. It is never verified, since the
   * verification routine is never run; a saved file is therefore always
   * reported with the verification failure unless reading it back failed.
   */
  predicate Recorded(r: ReportEnvelopeResult, a: Attempt, name: string)
    reads r
  {
    r.envelopeId == a.envelope.envelopeId && r.originalName == a.envelope.emailSubject &&
    !r.verified && r.fileName == name &&
    (a.response.Failure? ==>
      r.exception == Some(a.response.error) && r.responseSize == 0 && r.fileSize == 0) &&
    (a.response.Success? ==>
      r.responseSize == a.response.value &&
      r.fileSize == (if a.readBack.Success? then a.readBack.value else 0) &&
      r.exception == Some(if a.readBack.Failure? then a.readBack.error else Unverifiable))
  }

  /** One pass of the loop body, up to (not including) adding the entry to the report. */
  method DownloadOne(a: Attempt, registry: FileNameRegistry, ext: string, invalid: set<char>)
    returns (r: ReportEnvelopeResult)
    modifies registry
    ensures fresh(r)
    ensures a.response.Failure? ==> registry.counts == old(registry.counts) && Recorded(r, a, "")
    ensures a.response.Success? ==>
      var next := NextName(old(registry.counts), SavedBase(a.envelope.emailSubject, invalid), ext);
      registry.counts == next.1 && Recorded(r, a, next.0)
  {
    r := new ReportEnvelopeResult();
    r.envelopeId := a.envelope.envelopeId;
    r.originalName := a.envelope.emailSubject;
    match a.response
    case Failure(message) =>
      r.exception := Some(message);
      r.responseSize := 0;
      r.fileName := "";
      r.fileSize := 0;
    case Success(size) =>
      r.responseSize := size;
      var fileName := StripInvalid(a.envelope.emailSubject, invalid);
      if HasDocumentSuffix(fileName) {
        fileName := fileName[..|fileName| - 4];
      }
      fileName := registry.Claim(fileName, ext);
      r.fileName := fileName;
      match a.readBack
      case Failure(message) =>
        r.exception := Some(message);
      case Success(length) =>
        r.fileSize := length;
        if !r.verified {
          r.exception := Some(Unverifiable);
        }
  }

  /**
   * The download loop. Every attempt is recorded as a fresh entry after the
   * existing ones. With fail-on-first-error set, the run stops after the
   * first entry, since that entry always carries an exception, and the
   * report is marked failed with no overall exception.
   */
  method DownloadAll(report: ReportDetails, attempts: seq<Attempt>, config: Config, invalid: set<char>)
    returns (processed: nat, exited: bool, ghost entries: seq<ReportEnvelopeResult>, ghost names: seq<string>)
    modifies report
    ensures exited <==> config.failOnFirstError && attempts != []
    ensures processed == if exited then 1 else |attempts|
    ensures report.results == old(report.results) + entries
    ensures forall k :: 0 <= k < |entries| ==> fresh(entries[k])
    ensures RecordedAll(entries, attempts, names)
    ensures names == Naming(Bases(attempts[..processed], invalid), Extension(config.downloadMode)).0
    ensures exited ==> !report.succeeded && report.overallException.None?
    ensures !exited ==> report.succeeded == old(report.succeeded) && report.overallException == old(report.overallException)
    ensures Header(report) == old(Header(report))
  {
    processed, exited, entries, names := DownloadLoop(report, attempts, config, invalid);
    if exited {
      report.succeeded := false;
      report.overallException := None;
    }
  }

  /** The loop itself, before the run is ended on a first error. */
  method DownloadLoop(report: ReportDetails, attempts: seq<Attempt>, config: Config, invalid: set<char>)
    returns (processed: nat, exited: bool, ghost entries: seq<ReportEnvelopeResult>, ghost names: seq<string>)
    modifies report
    ensures exited <==> config.failOnFirstError && attempts != []
    ensures processed == if exited then 1 else |attempts|
    ensures report.results == old(report.results) + entries
    ensures forall k :: 0 <= k < |entries| ==> fresh(entries[k])
    ensures RecordedAll(entries, attempts, names)
    ensures names == Naming(Bases(attempts[..processed], invalid), Extension(config.downloadMode)).0
    ensures report.succeeded == old(report.succeeded) && report.overallException == old(report.overallException)
    ensures Header(report) == old(Header(report))
  {
    var registry := new FileNameRegistry();
    var ext := Extension(config.downloadMode);
    entries := [];
    names := [];
    processed, exited := 0, false;
    while processed < |attempts| && !exited
      invariant processed <= |attempts| && |entries| == processed
      invariant exited ==> config.failOnFirstError && processed == 1
      invariant !exited && config.failOnFirstError ==> processed == 0
      invariant report.results == old(report.results) + entries
      invariant fresh(registry)
      invariant Naming(Bases(attempts[..processed], invalid), ext) == (names, registry.counts)
      invariant forall k :: 0 <= k < |entries| ==> fresh(entries[k])
      invariant RecordedAll(entries, attempts, names)
      invariant report.succeeded == old(report.succeeded) && report.overallException == old(report.overallException)
      invariant Header(report) == old(Header(report))
    {
      var r;
      ghost var name;
      r, name := RecordAttempt(report, registry, attempts, processed, ext, invalid, old(report.results), entries, names);
      entries := entries + [r];
      names := names + [name];
      processed := processed + 1;
      exited := config.failOnFirstError && r.exception.Some?;
    }
  }

  /** One pass of the loop body: the next attempt's entry is appended to the report. */
  method RecordAttempt(report: ReportDetails, registry: FileNameRegistry, attempts: seq<Attempt>, i: nat,
                       ext: string, invalid: set<char>,
                       ghost start: seq<ReportEnvelopeResult>, ghost entries: seq<ReportEnvelopeResult>,
                       ghost names: seq<string>)
    returns (r: ReportEnvelopeResult, ghost name: string)
    requires i < |attempts| && |entries| == i
    requires report.results == start + entries
    requires Naming(Bases(attempts[..i], invalid), ext) == (names, registry.counts)
    requires RecordedAll(entries, attempts, names)
    modifies report, registry
    ensures fresh(r) && report.results == start + (entries + [r])
    ensures Naming(Bases(attempts[..i + 1], invalid), ext) == (names + [name], registry.counts)
    ensures RecordedAll(entries + [r], attempts, names + [name]) && r.exception.Some?
    ensures report.succeeded == old(report.succeeded) && report.overallException == old(report.overallException)
    ensures Header(report) == old(Header(report))
  {
    var a := attempts[i];
    ghost var counts := registry.counts;
    name := if a.response.Success? then NextName(registry.counts, SavedBase(a.envelope.emailSubject, invalid), ext).0 else "";
    var entry := DownloadOne(a, registry, ext, invalid);
    report.results := report.results + [entry];
    r := entry;
    NamingStep(attempts, invalid, ext, i, names, counts, name, registry.counts);
    RecordedAllSnoc(entries, r, attempts, names, name);
    SnocAssoc(start, entries, r);
  }

  /** The entries `rs` record the first `|rs|` attempts, saved under `names`. */
  predicate RecordedAll(rs: seq<ReportEnvelopeResult>, attempts: seq<Attempt>, names: seq<string>)
    reads rs
  {
    |rs| <= |attempts| && |rs| == |names| &&
    forall k :: 0 <= k < |rs| ==> Recorded(rs[k], attempts[k], names[k])
  }

  /** The attempts the loop is given are the selected envelopes, one each, in order. */
  predicate AttemptsFollow(attempts: seq<Attempt>, envelopes: seq<Envelope>)
  {
    |attempts| == |envelopes| && forall i :: 0 <= i < |attempts| ==> attempts[i].envelope == envelopes[i]
  }

  /**
   * Composes the selection with the loop: the k-th recorded entry belongs to
   * the k-th unpurged envelope of the listing, and a run that records an entry
   * per attempt records every unpurged envelope, in listing order.
   */
  lemma EntriesFollowListing(info: Option<EnvelopesInformation>, attempts: seq<Attempt>,
                             entries: seq<ReportEnvelopeResult>, names: seq<string>)
    requires SelectEnvelopes(info).envelopes.Success?
    requires AttemptsFollow(attempts, SelectEnvelopes(info).envelopes.value)
    requires RecordedAll(entries, attempts, names)
    ensures forall k :: 0 <= k < |entries| ==>
      IsUnpurged(attempts[k].envelope) &&
      entries[k].envelopeId == Unpurged(info.value.envelopes)[k].envelopeId &&
      entries[k].originalName == Unpurged(info.value.envelopes)[k].emailSubject
    ensures |entries| == |attempts| ==> |entries| == |Unpurged(info.value.envelopes)|
  {
    var kept := Unpurged(info.value.envelopes);
    forall k | 0 <= k < |entries|
      ensures IsUnpurged(attempts[k].envelope)
      ensures entries[k].envelopeId == kept[k].envelopeId && entries[k].originalName == kept[k].emailSubject
    {
      assert Recorded(entries[k], attempts[k], names[k]);
      assert attempts[k].envelope == kept[k];
    }
  }

  lemma RecordedAllSnoc(rs: seq<ReportEnvelopeResult>, r: ReportEnvelopeResult, attempts: seq<Attempt>,
                        names: seq<string>, name: string)
    requires RecordedAll(rs, attempts, names) && |rs| < |attempts|
    requires Recorded(r, attempts[|rs|], name)
    ensures RecordedAll(rs + [r], attempts, names + [name])
  {
    forall k | 0 <= k < |rs| + 1
      ensures Recorded((rs + [r])[k], attempts[k], (names + [name])[k])
    {
      if k < |rs| {
        assert (rs + [r])[k] == rs[k] && (names + [name])[k] == names[k];
      }
    }
  }

  /** One more attempt: its claim on the counters and the name it saves under. */
  lemma NamingStep(attempts: seq<Attempt>, invalid: set<char>, ext: string, i: nat,
                   names: seq<string>, counts: map<string, nat>, name: string, counts': map<string, nat>)
    requires i < |attempts|
    requires Naming(Bases(attempts[..i], invalid), ext) == (names, counts)
    requires (name, counts') ==
      if attempts[i].response.Success? then NextName(counts, SavedBase(attempts[i].envelope.emailSubject, invalid), ext)
      else ("", counts)
    ensures Naming(Bases(attempts[..i + 1], invalid), ext) == (names + [name], counts')
  {
    var before := Bases(attempts[..i], invalid);
    var after := Bases(attempts[..i + 1], invalid);
    assert after[..i] == before;
    assert after[i] == BaseOf(attempts[i], invalid);
  }

  lemma SnocAssoc<T>(a: seq<T>, b: seq<T>, x: T)
    ensures (a + b) + [x] == a + (b + [x])
  {
  }


  /** The run succeeded exactly when every recorded result is verified. */
  method MarkSucceeded(report: ReportDetails)
    modifies report
    ensures report.succeeded <==> forall i :: 0 <= i < |report.results| ==> report.results[i].verified
    ensures report.results == old(report.results) && report.overallException == old(report.overallException)
    ensures Header(report) == old(Header(report))
  {
    var anyUnverified := exists i :: 0 <= i < |report.results| && !report.results[i].verified;
    report.succeeded := !anyUnverified;
    assert forall i :: 0 <= i < |report.results| ==> report.results[i].verified == old(report.results[i].verified);
  }

  /**
   * The loop followed by the success flag. Because no entry is ever
   * verified, a run that attempts any envelope is reported as failed.
   */
  method RunDownloads(report: ReportDetails, attempts: seq<Attempt>, config: Config, invalid: set<char>)
    returns (exited: bool, ghost entries: seq<ReportEnvelopeResult>, ghost names: seq<string>)
    modifies report
    ensures report.results == old(report.results) + entries
    ensures attempts != [] ==> !report.succeeded
    ensures !exited ==> (report.succeeded <==>
      attempts == [] && forall i :: 0 <= i < |old(report.results)| ==> report.results[i].verified)
    ensures exited <==> config.failOnFirstError && attempts != []
    ensures exited ==> report.overallException.None?
    ensures !exited ==> report.overallException == old(report.overallException)
    ensures forall k :: 0 <= k < |entries| ==> fresh(entries[k])
    ensures RecordedAll(entries, attempts, names) && |entries| == (if exited then 1 else |attempts|)
    ensures names == Naming(Bases(attempts[..|entries|], invalid), Extension(config.downloadMode)).0
    ensures Header(report) == old(Header(report))
  {
    var processed;
    processed, exited, entries, names := DownloadAll(report, attempts, config, invalid);
    if !exited {
      if attempts != [] {
        assert report.results[|old(report.results)|] == entries[0];
        assert !entries[0].verified;
      }
      MarkSucceeded(report);
    }
  }
}
