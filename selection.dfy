/**
 * The file-selection prompt of `choose_file_from_archive`: a line typed by the
 * user becomes cancel, download-all, a pick from the numbered list, or a
 * re-prompt; and the prompt loop that repeats until one of the first three.
 */
module Selection {
  import opened Wrappers
  import opened Text
  import opened AudioFiles

  /** What one input line means. The last two make the prompt repeat. */
  datatype Decision =
    | Cancel           // "q"
    | DownloadAll      // "all"
    | Pick(name: string)
    | BadNumber        // digits, but not a listed number ("Неверный номер.")
    | UnknownCommand   // anything else

  /** The function's return value `(filename, download_all)`. */
  datatype Choice = Choice(filename: Option<string>, downloadAll: bool)

  /** `input("> ").strip().lower()` */
  function Normalize(line: string): string {
    Lower(Strip(line))
  }

  predicate IsListed(c: string, count: nat) {
    IsDigits(c) && 1 <= DecimalValue(c) <= count
  }

  /** The decision branch on the normalized line `c`, over the numbered list `files`. */
  function Interpret(files: seq<ArchiveFile>, c: string): (d: Decision)
    ensures d == Cancel <==> c == "q"
    ensures d == DownloadAll <==> c == "all"
    ensures d.Pick? <==> IsListed(c, |files|)
    ensures d.Pick? ==> d.name == files[DecimalValue(c) - 1].name
    ensures d == BadNumber <==> IsDigits(c) && !IsListed(c, |files|)
  {
    if c == "q" then Cancel
    else if c == "all" then DownloadAll
    else if IsDigits(c) then
      var idx := DecimalValue(c) - 1;
      if 0 <= idx < |files| then Pick(files[idx].name) else BadNumber
    else UnknownCommand
  }

  /** What the typed line means. */
  function Decide(files: seq<ArchiveFile>, line: string): Decision {
    Interpret(files, Normalize(line))
  }

  predicate IsFinal(d: Decision) {
    d.Cancel? || d.DownloadAll? || d.Pick?
  }

  function ChoiceOf(d: Decision): Choice
    requires IsFinal(d)
  {
    match d
    case Cancel => Choice(None, false)
    case DownloadAll => Choice(None, true)
    case Pick(name) => Choice(Some(name), false)
  }

  /** The whole prompt over the lines the user types, in order. An empty list
      answers the first "press Enter" and returns `(None, False)`; a re-prompt
      reads one more line ("Нажмите Enter...") and discards it. `None` means the
      input ended before an answer (where Python raises `EOFError`). */
  function Prompt(files: seq<ArchiveFile>, lines: seq<string>): Option<Choice>
    decreases |lines|
  {
    if lines == [] then None
    else if files == [] then Some(Choice(None, false))
    else
      var d := Decide(files, lines[0]);
      if IsFinal(d) then Some(ChoiceOf(d))
      else if |lines| < 2 then None
      else Prompt(files, lines[2..])
  }

  lemma PromptStep(files: seq<ArchiveFile>, rest: seq<string>)
    requires files != [] && |rest| >= 2 && !IsFinal(Decide(files, rest[0]))
    ensures Prompt(files, rest) == Prompt(files, rest[2..])
  {
  }

  /** The `while True` prompt loop, proved against `Prompt`. */
  method ChooseFile(files: seq<ArchiveFile>, lines: seq<string>) returns (r: Option<Choice>)
    ensures r == Prompt(files, lines)
  {
    if lines == [] {
      return None;
    }
    if files == [] {
      return Some(Choice(None, false));
    }
    var i := 0;
    while i < |lines|
      invariant 0 <= i <= |lines|
      invariant Prompt(files, lines) == Prompt(files, lines[i..])
      decreases |lines| - i
    {
      var rest := lines[i..];
      assert rest[0] == lines[i];
      var d := Decide(files, lines[i]);
      if IsFinal(d) {
        return Some(ChoiceOf(d));
      }
      if i + 1 == |lines| {
        return None;
      }
      PromptStep(files, rest);
      assert rest[2..] == lines[i + 2..];
      i := i + 2;
    }
    return None;
  }

  // ----------------------------------------------------------- properties

  lemma InterpretDigits(files: seq<ArchiveFile>, s: string)
    requires IsDigits(s)
    ensures Interpret(files, s) == if 1 <= DecimalValue(s) <= |files| then Pick(files[DecimalValue(s) - 1].name) else BadNumber
  {
    assert s[0] != 'q' && s[0] != 'a';
    assert s != "q" && s != "all";
  }

  /** A listed number picks the file shown with that number; 0 and numbers past
      the end re-prompt. */
  lemma DecideNumber(files: seq<ArchiveFile>, n: nat)
    ensures 1 <= n <= |files| ==> Decide(files, ShowNat(n)) == Pick(files[n - 1].name)
    ensures !(1 <= n <= |files|) ==> Decide(files, ShowNat(n)) == BadNumber
  {
    var s := ShowNat(n);
    DecimalValueOfShowNat(n);
    StripDigits(s);
    LowerDigits(s);
    assert Normalize(s) == s;
    InterpretDigits(files, s);
  }

  lemma StripDigits(s: string)
    requires IsDigits(s)
    ensures Strip(s) == s
  {
    TrimStartFixed(s);
    TrimEndFixed(s);
  }

  lemma LowerDigits(s: string)
    requires IsDigits(s)
    ensures Lower(s) == s
  {
  }

  /** Whitespace around the line does not change the decision. */
  lemma DecidePadded(files: seq<ArchiveFile>, p: string, line: string, q: string)
    requires AllSpace(p) && AllSpace(q)
    ensures Decide(files, p + line + q) == Decide(files, line)
  {
    StripOfPadded(p, line, q);
  }

  /** Letter case does not change the decision ("Q", "ALL", "All" ...). */
  lemma DecideIgnoresCase(files: seq<ArchiveFile>, line: string)
    ensures Decide(files, Lower(line)) == Decide(files, line)
  {
    StripLower(line);
    LowerIdempotent(Strip(line));
  }

  /** The prompt never answers both a file and "all", and a named file is one of the
      listed files; with a list from the classifier that name is never empty. */
  lemma {:induction false} PromptAnswers(files: seq<ArchiveFile>, lines: seq<string>)
    ensures Prompt(files, lines).Some? ==> !(Prompt(files, lines).value.filename.Some? && Prompt(files, lines).value.downloadAll)
    ensures Prompt(files, lines).Some? && Prompt(files, lines).value.filename.Some? ==>
              exists i :: 0 <= i < |files| && files[i].name == Prompt(files, lines).value.filename.value
    ensures (forall f :: f in files ==> IsAudio(f)) && Prompt(files, lines).Some? && Prompt(files, lines).value.filename.Some? ==>
              Prompt(files, lines).value.filename.value != ""
    decreases |lines|
  {
    if lines != [] && files != [] {
      var d := Decide(files, lines[0]);
      if d.Pick? {
        var i := DecimalValue(Normalize(lines[0])) - 1;
        assert d.name == files[i].name;
        assert files[i] in files;
      } else if !IsFinal(d) && |lines| >= 2 {
        PromptAnswers(files, lines[2..]);
      }
    }
  }

  /** An empty list of audio files cancels without reading a choice. */
  lemma PromptNoFiles(lines: seq<string>)
    requires lines != []
    ensures Prompt([], lines) == Some(Choice(None, false))
  {
  }

  /** The downloads `main` starts after the prompt (iamd.py lines 235-245): for "all",
      every file of the freshly re-read list `again`, in its order; for a file name,
      that file; otherwise nothing. */
  function DownloadPlan(choice: Choice, again: seq<ArchiveFile>): seq<string> {
    if choice.downloadAll then seq(|again|, i requires 0 <= i < |again| => again[i].name)
    else if choice.filename.Some? && choice.filename.value != "" then [choice.filename.value]
    else []
  }

  /** When both lists come from the classifier, every planned download names an
      original audio file: of the re-read listing for "all", of the listing the
      user picked from otherwise. "all" fetches one file per audio file of the
      re-read listing; a pick is never dropped by the empty-name guard, so it
      fetches exactly the picked file; a cancel fetches nothing. */
  lemma DownloadPlanNamesAudio(raw: seq<ArchiveFile>, lines: seq<string>, again: seq<ArchiveFile>)
    requires Prompt(Classify(raw), lines).Some?
    ensures forall n :: n in DownloadPlan(Prompt(Classify(raw), lines).value, Classify(again)) ==>
              n != "" && exists f :: f in raw + again && IsAudio(f) && f.name == n
    ensures Prompt(Classify(raw), lines).value.downloadAll ==>
              |DownloadPlan(Prompt(Classify(raw), lines).value, Classify(again))| == |Classify(again)|
    ensures Prompt(Classify(raw), lines).value.downloadAll ==>
              forall i :: 0 <= i < |Classify(again)| ==>
                DownloadPlan(Prompt(Classify(raw), lines).value, Classify(again))[i] == Classify(again)[i].name
    ensures Prompt(Classify(raw), lines).value.filename.Some? ==>
              DownloadPlan(Prompt(Classify(raw), lines).value, Classify(again)) == [Prompt(Classify(raw), lines).value.filename.value]
    ensures Prompt(Classify(raw), lines).value == Choice(None, false) ==>
              DownloadPlan(Prompt(Classify(raw), lines).value, Classify(again)) == []
  {
    var files := Classify(raw);
    ClassifyContents(raw);
    ClassifyContents(again);
    PromptAnswers(files, lines);
    var c := Prompt(files, lines).value;
    var plan := DownloadPlan(c, Classify(again));
    forall n | n in plan ensures n != "" && exists f :: f in raw + again && IsAudio(f) && f.name == n {
      if c.downloadAll {
        var i :| 0 <= i < |plan| && plan[i] == n;
        var f := Classify(again)[i];
        assert f in Classify(again) && f in raw + again;
      } else {
        var i :| 0 <= i < |files| && files[i].name == n;
        var f := files[i];
        assert f in files && f in raw + again;
      }
    }
  }
}
