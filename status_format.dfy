/** The nine-character status code written before each path, in the style of
    `git status --porcelain=v2`. The file and submodule status bit sets are
    abstracted as records of the boolean predicates the formatter asks. */
module StatusFormat {
  import opened ColoredStrings

  /** The questions asked of a file's status flags. */
  datatype Status = Status(
    ignored: bool, wtNew: bool, conflicted: bool,
    indexNew: bool, indexModified: bool, indexDeleted: bool,
    indexRenamed: bool, indexTypechange: bool,
    wtModified: bool, wtDeleted: bool, wtTypechange: bool, wtRenamed: bool)

  /** The questions asked of a submodule's status flags. */
  datatype SubmoduleStatus = SubmoduleStatus(
    inHead: bool, inIndex: bool, inConfig: bool, inWd: bool,
    indexAdded: bool, indexDeleted: bool, indexModified: bool,
    wdUninitialized: bool, wdAdded: bool, wdDeleted: bool,
    wdModified: bool, wdWdModified: bool, wdUntracked: bool)

  /** Placeholder for "no change": blank when colouring, '.' otherwise. */
  function Unchanged(colored: bool): (c: char)
    ensures c == ' ' || c == '.'
    ensures c == ' ' <==> colored
  {
    if colored then ' ' else '.'
  }

  /** Kind of entry: ignored, untracked, unmerged, renamed or ordinary.
      The first flag asked in that order decides. */
  function EntryField(s: Status): (c: char)
    ensures c in "!?u21"
    ensures c == '!' <==> s.ignored
    ensures c == '?' <==> !s.ignored && s.wtNew
    ensures c == 'u' <==> !s.ignored && !s.wtNew && s.conflicted
    ensures c == '2' <==> !s.ignored && !s.wtNew && !s.conflicted && (s.indexRenamed || s.wtRenamed)
    ensures c == '1' <==> !(s.ignored || s.wtNew || s.conflicted || s.indexRenamed || s.wtRenamed)
  {
    if s.ignored then '!'
    else if s.wtNew then '?'
    else if s.conflicted then 'u'
    else if s.indexRenamed || s.wtRenamed then '2'
    else '1'
  }

  /** Index change: added, modified, deleted, renamed, type changed; the
      first flag asked in that order decides. */
  function IndexField(s: Status, colored: bool): (c: char)
    ensures c in "?MDRT ."
    ensures c == '?' <==> s.indexNew
    ensures c == 'M' <==> !s.indexNew && s.indexModified
    ensures c == 'D' <==> !s.indexNew && !s.indexModified && s.indexDeleted
    ensures c == 'R' <==> !s.indexNew && !s.indexModified && !s.indexDeleted && s.indexRenamed
    ensures c == 'T' <==> !s.indexNew && !s.indexModified && !s.indexDeleted && !s.indexRenamed
                          && s.indexTypechange
    ensures c == ' ' <==> colored
                          && !(s.indexNew || s.indexModified || s.indexDeleted || s.indexRenamed || s.indexTypechange)
    ensures c == '.' <==> !colored
                          && !(s.indexNew || s.indexModified || s.indexDeleted || s.indexRenamed || s.indexTypechange)
  {
    if s.indexNew then '?'
    else if s.indexModified then 'M'
    else if s.indexDeleted then 'D'
    else if s.indexRenamed then 'R'
    else if s.indexTypechange then 'T'
    else Unchanged(colored)
  }

  /** Worktree change: modified, deleted, type changed, renamed; the first
      flag asked in that order decides. */
  function WorktreeField(s: Status, colored: bool): (c: char)
    ensures c in "MDTR ."
    ensures c == 'M' <==> s.wtModified
    ensures c == 'D' <==> !s.wtModified && s.wtDeleted
    ensures c == 'T' <==> !s.wtModified && !s.wtDeleted && s.wtTypechange
    ensures c == 'R' <==> !s.wtModified && !s.wtDeleted && !s.wtTypechange && s.wtRenamed
    ensures c == ' ' <==> colored && !(s.wtModified || s.wtDeleted || s.wtTypechange || s.wtRenamed)
    ensures c == '.' <==> !colored && !(s.wtModified || s.wtDeleted || s.wtTypechange || s.wtRenamed)
  {
    if s.wtModified then 'M'
    else if s.wtDeleted then 'D'
    else if s.wtTypechange then 'T'
    else if s.wtRenamed then 'R'
    else Unchanged(colored)
  }

  /** Where the submodule is known: HEAD, index, configuration, working
      directory; the first flag asked in that order decides. */
  function SubmoduleHeadField(m: SubmoduleStatus, colored: bool): (c: char)
    ensures c in "HICW ."
    ensures c == 'H' <==> m.inHead
    ensures c == 'I' <==> !m.inHead && m.inIndex
    ensures c == 'C' <==> !m.inHead && !m.inIndex && m.inConfig
    ensures c == 'W' <==> !m.inHead && !m.inIndex && !m.inConfig && m.inWd
    ensures c == ' ' <==> colored && !(m.inHead || m.inIndex || m.inConfig || m.inWd)
    ensures c == '.' <==> !colored && !(m.inHead || m.inIndex || m.inConfig || m.inWd)
  {
    if m.inHead then 'H'
    else if m.inIndex then 'I'
    else if m.inConfig then 'C'
    else if m.inWd then 'W'
    else Unchanged(colored)
  }

  /** Submodule index change: added, deleted, modified. Unlike the other
      fields, its fallback is '.' even when colouring. */
  function SubmoduleIndexField(m: SubmoduleStatus): (c: char)
    ensures c in "ADM."
    ensures c == 'A' <==> m.indexAdded
    ensures c == 'D' <==> !m.indexAdded && m.indexDeleted
    ensures c == 'M' <==> !m.indexAdded && !m.indexDeleted && m.indexModified
    ensures c == '.' <==> !(m.indexAdded || m.indexDeleted || m.indexModified)
  {
    if m.indexAdded then 'A'
    else if m.indexDeleted then 'D'
    else if m.indexModified then 'M'
    else '.'
  }

  /** Submodule working directory: uninitialised, added, deleted, modified,
      modified inside, untracked files; the first flag asked in that order
      decides, and both the first and the last give 'U'. */
  function SubmoduleWorktreeField(m: SubmoduleStatus, colored: bool): (c: char)
    ensures c in "UADMW ."
    ensures c == 'U' <==> m.wdUninitialized
                          || (!m.wdAdded && !m.wdDeleted && !m.wdModified && !m.wdWdModified
                              && m.wdUntracked)
    ensures c == 'A' <==> !m.wdUninitialized && m.wdAdded
    ensures c == 'D' <==> !m.wdUninitialized && !m.wdAdded && m.wdDeleted
    ensures c == 'M' <==> !m.wdUninitialized && !m.wdAdded && !m.wdDeleted && m.wdModified
    ensures c == 'W' <==> !m.wdUninitialized && !m.wdAdded && !m.wdDeleted && !m.wdModified
                          && m.wdWdModified
    ensures c == ' ' <==> colored && !(m.wdUninitialized || m.wdAdded || m.wdDeleted || m.wdModified
                                       || m.wdWdModified || m.wdUntracked)
    ensures c == '.' <==> !colored && !(m.wdUninitialized || m.wdAdded || m.wdDeleted || m.wdModified
                                        || m.wdWdModified || m.wdUntracked)
  {
    if m.wdUninitialized then 'U'
    else if m.wdAdded then 'A'
    else if m.wdDeleted then 'D'
    else if m.wdModified then 'M'
    else if m.wdWdModified then 'W'
    else if m.wdUntracked then 'U'
    else Unchanged(colored)
  }

  /** The four characters of the submodule part, "S" then three fields. */
  function SubmoduleCode(m: SubmoduleStatus, colored: bool): (r: string)
    ensures |r| == 4 && r[0] == 'S'
    ensures r[1] == SubmoduleHeadField(m, colored)
    ensures r[2] == SubmoduleIndexField(m)
    ensures r[3] == SubmoduleWorktreeField(m, colored)
  {
    ['S', SubmoduleHeadField(m, colored), SubmoduleIndexField(m),
     SubmoduleWorktreeField(m, colored)]
  }

  /** The plain text `status_to_string` appends: entry kind, blank, index
      field, worktree field, blank, then "N..." or the submodule part. */
  function StatusCode(s: Status, sub: Option<SubmoduleStatus>, colored: bool): (r: string)
    ensures |r| == 9
    ensures r[0] == EntryField(s) && r[2] == IndexField(s, colored) && r[3] == WorktreeField(s, colored)
    ensures r[1] == ' ' && r[4] == ' '
    ensures sub.None? ==> r[5..] == "N..."
    ensures sub.Some? ==> r[5..] == SubmoduleCode(sub.value, colored)
  {
    [EntryField(s), ' ', IndexField(s, colored), WorktreeField(s, colored), ' ']
      + match sub
        case None => "N..."
        case Some(m) => SubmoduleCode(m, colored)
  }

  /** Without colouring no field is ever blank: the only blanks are the two
      separators. */
  lemma UncoloredBlanksAreSeparators(s: Status, sub: Option<SubmoduleStatus>, i: nat)
    requires i < 9
    ensures StatusCode(s, sub, false)[i] == ' ' <==> i == 1 || i == 4
  {
    var r := StatusCode(s, sub, false);
    if i >= 5 {
      assert r[i] == r[5..][i - 5];
    }
  }

  /** With colouring a field never shows '.', except the submodule index
      field when it reports nothing and the "N..." of a non-submodule. */
  lemma ColoredDotsOnlyInSubmodulePart(s: Status, sub: Option<SubmoduleStatus>, i: nat)
    requires i < 9
    ensures StatusCode(s, sub, true)[i] == '.'
            <==> (sub.None? && i >= 6) || (sub.Some? && i == 7 && SubmoduleIndexField(sub.value) == '.')
  {
    var r := StatusCode(s, sub, true);
    if i >= 5 {
      assert r[i] == r[5..][i - 5];
    }
  }

  /** The rendered status line: the old rendering, then the code, with one
      BLACK escape just before 'S' when there is a submodule status. */
  lemma {:induction false} StatusCodeRendered(raw: string, ms: seq<ColorMarker>, s: Status,
                                              sub: Option<SubmoduleStatus>, colored: bool)
    requires MarkersWithin(ms, 0, |raw|)
    ensures sub.None? ==>
              && MarkersWithin(ms, 0, |raw + StatusCode(s, sub, colored)|)
              && Render(raw + StatusCode(s, sub, colored), ms)
                 == Render(raw, ms) + StatusCode(s, sub, colored)
    ensures sub.Some? ==>
              && MarkersWithin(ms + [ColorMarker(|raw| + 5, BLACK)], 0, |raw + StatusCode(s, sub, colored)|)
              && Render(raw + StatusCode(s, sub, colored), ms + [ColorMarker(|raw| + 5, BLACK)])
                 == Render(raw, ms) + StatusCode(s, sub, colored)[..5] + Escape(BLACK)
                    + StatusCode(s, sub, colored)[5..]
  {
    var code := StatusCode(s, sub, colored);
    if sub.None? {
      RenderAppendText(raw, code, ms, 0);
    } else {
      RenderTextColorText(raw, ms, code[..5], BLACK, code[5..]);
      assert raw + code[..5] + code[5..] == raw + code;
    }
  }

  // Each field of the status code is one `if`/`else if` chain that pushes a
  // single character; every chain is its own method below, and the two
  // formatters call them in the order the source runs them.

  method PushEntryField(ret: ColoredString, s: Status)
    requires ret.Valid()
    modifies ret
    ensures ret.Valid()
    ensures ret.raw == old(ret.raw) + [EntryField(s)] && ret.markers == old(ret.markers)
  {
    if s.ignored {
      ret.Push('!');
    } else if s.wtNew {
      ret.Push('?');
    } else if s.conflicted {
      ret.Push('u');
    } else if s.indexRenamed || s.wtRenamed {
      ret.Push('2');
    } else {
      ret.Push('1');
    }
  }

  method PushIndexField(ret: ColoredString, s: Status, colored: bool)
    requires ret.Valid()
    modifies ret
    ensures ret.Valid()
    ensures ret.raw == old(ret.raw) + [IndexField(s, colored)] && ret.markers == old(ret.markers)
  {
    if s.indexNew {
      ret.Push('?');
    } else if s.indexModified {
      ret.Push('M');
    } else if s.indexDeleted {
      ret.Push('D');
    } else if s.indexRenamed {
      ret.Push('R');
    } else if s.indexTypechange {
      ret.Push('T');
    } else if colored {
      ret.Push(' ');
    } else {
      ret.Push('.');
    }
  }

  method PushWorktreeField(ret: ColoredString, s: Status, colored: bool)
    requires ret.Valid()
    modifies ret
    ensures ret.Valid()
    ensures ret.raw == old(ret.raw) + [WorktreeField(s, colored)] && ret.markers == old(ret.markers)
  {
    if s.wtModified {
      ret.Push('M');
    } else if s.wtDeleted {
      ret.Push('D');
    } else if s.wtTypechange {
      ret.Push('T');
    } else if s.wtRenamed {
      ret.Push('R');
    } else if colored {
      ret.Push(' ');
    } else {
      ret.Push('.');
    }
  }

  method PushSubmoduleHeadField(ret: ColoredString, m: SubmoduleStatus, colored: bool)
    requires ret.Valid()
    modifies ret
    ensures ret.Valid()
    ensures ret.raw == old(ret.raw) + [SubmoduleHeadField(m, colored)] && ret.markers == old(ret.markers)
  {
    if m.inHead {
      ret.Push('H');
    } else if m.inIndex {
      ret.Push('I');
    } else if m.inConfig {
      ret.Push('C');
    } else if m.inWd {
      ret.Push('W');
    } else if colored {
      ret.Push(' ');
    } else {
      ret.Push('.');
    }
  }

  method PushSubmoduleIndexField(ret: ColoredString, m: SubmoduleStatus)
    requires ret.Valid()
    modifies ret
    ensures ret.Valid()
    ensures ret.raw == old(ret.raw) + [SubmoduleIndexField(m)] && ret.markers == old(ret.markers)
  {
    if m.indexAdded {
      ret.Push('A');
    } else if m.indexDeleted {
      ret.Push('D');
    } else if m.indexModified {
      ret.Push('M');
    } else {
      ret.Push('.');
    }
  }

  method PushSubmoduleWorktreeField(ret: ColoredString, m: SubmoduleStatus, colored: bool)
    requires ret.Valid()
    modifies ret
    ensures ret.Valid()
    ensures ret.raw == old(ret.raw) + [SubmoduleWorktreeField(m, colored)] && ret.markers == old(ret.markers)
  {
    if m.wdUninitialized {
      ret.Push('U');
    } else if m.wdAdded {
      ret.Push('A');
    } else if m.wdDeleted {
      ret.Push('D');
    } else if m.wdModified {
      ret.Push('M');
    } else if m.wdWdModified {
      ret.Push('W');
    } else if m.wdUntracked {
      ret.Push('U');
    } else if colored {
      ret.Push(' ');
    } else {
      ret.Push('.');
    }
  }

  /** `submodule_status_to_string`: a BLACK marker, then the submodule part. */
  method SubmoduleStatusToString(ret: ColoredString, m: SubmoduleStatus, colored: bool)
    requires ret.Valid()
    modifies ret
    ensures ret.Valid()
    ensures ret.raw == old(ret.raw) + SubmoduleCode(m, colored)
    ensures ret.markers == old(ret.markers) + [ColorMarker(|old(ret.raw)|, BLACK)]
  {
    ret.SetFgColor(BLACK);
    ret.Push('S');
    PushSubmoduleHeadField(ret, m, colored);
    PushSubmoduleIndexField(ret, m);
    PushSubmoduleWorktreeField(ret, m, colored);
  }

  /** `status_to_string`: appends the nine-character code, keeping what the
      buffer held before as a prefix, and records a marker only for a
      submodule. */
  method StatusToString(ret: ColoredString, s: Status, sub: Option<SubmoduleStatus>, colored: bool)
    requires ret.Valid()
    modifies ret
    ensures ret.Valid()
    ensures ret.raw == old(ret.raw) + StatusCode(s, sub, colored)
    ensures sub.None? ==> ret.markers == old(ret.markers)
    ensures sub.Some? ==> ret.markers == old(ret.markers) + [ColorMarker(|old(ret.raw)| + 5, BLACK)]
  {
    ghost var code := StatusCode(s, sub, colored);
    ghost var before := ret.raw;
    PushEntryField(ret, s);
    ret.Push(' ');
    PushIndexField(ret, s, colored);
    PushWorktreeField(ret, s, colored);
    ret.Push(' ');
    assert ret.raw == before + code[..5];
    assert code == code[..5] + code[5..];

    match sub
    case None => ret.PushStr("N...");
    case Some(m) => SubmoduleStatusToString(ret, m, colored);
  }
}
