/** The command history of applications/shell/src/lib.rs: what Up, Down, Enter, Ctrl+C and editing
    do to `command_history`, `history_index`, `cmdline` and `buffered_cmd_recorded`. */
module ShellHistory {

  datatype History = History(log: seq<string>, index: nat, cmdline: string, recorded: bool)

  const INIT := History([], 0, "", false)

  /** Every history lookup is in range. */
  predicate InRange(h: History) {
    h.index <= |h.log|
  }

  // ----- the operations

  /** The entry `back` commands ago; the most recent one is 1 back. */
  function Entry(log: seq<string>, back: nat): string
    requires 1 <= back <= |log|
  {
    log[|log| - back]
  }

  /** `goto_previous_command` */
  function Up(h: History): (h': History)
    requires InRange(h)
    ensures InRange(h')
  {
    if h.index == |h.log| then h
    else if h.index == 0 && h.cmdline != "" then
      History(h.log + [h.cmdline], 2, Entry(h.log + [h.cmdline], 2), true)
    else
      h.(index := h.index + 1, cmdline := Entry(h.log, h.index + 1))
  }

  /** `goto_next_command` */
  function Down(h: History): (h': History)
    requires InRange(h)
    ensures InRange(h')
  {
    if h.index == 0 then h
    else if h.index == 1 && h.recorded then
      History(h.log[..|h.log| - 1], 0, Entry(h.log, 1), false)
    else if h.index == 1 then h.(index := 0, cmdline := "")
    else h.(index := h.index - 1, cmdline := Entry(h.log, h.index - 1))
  }

  /** `Vec::dedup`: drops every element equal to the one before it. */
  function Dedup(log: seq<string>): seq<string> {
    if |log| <= 1 then log
    else if log[|log| - 2] == log[|log| - 1] then Dedup(log[..|log| - 1])
    else Dedup(log[..|log| - 1]) + [log[|log| - 1]]
  }

  predicate NoRepeats(log: seq<string>) {
    forall k :: 0 < k < |log| ==> log[k - 1] != log[k]
  }

  /** Deduplication leaves no entry next to an equal one, keeps the newest entry and every distinct
      command, and changes nothing else. */
  lemma {:induction false} DedupMeaning(log: seq<string>)
    ensures NoRepeats(Dedup(log)) && (NoRepeats(log) ==> Dedup(log) == log)
    ensures forall s :: s in Dedup(log) <==> s in log
    ensures log != [] ==> Dedup(log) != [] && Dedup(log)[|Dedup(log)| - 1] == log[|log| - 1]
  {
    if |log| > 1 {
      var front, last := log[..|log| - 1], log[|log| - 1];
      DedupMeaning(front);
      assert log == front + [last];
    }
  }

  /** Enter, with or without a foreground job. The flag `recorded` is left as it is. */
  function Enter(h: History, foreground: bool): History {
    if foreground || h.cmdline == "" then h
    else h.(log := Dedup(h.log + [h.cmdline]), index := 0, cmdline := "")
  }

  /** Ctrl+C, with or without a foreground job. */
  function CtrlC(h: History, foreground: bool): History {
    if foreground then h else h.(index := 0, cmdline := "")
  }

  /** Enter at a prompt with a command: whatever the history was, it has no repeats afterwards, all its
      commands and the new one, which is last; the line and the index are cleared and the flag is left. */
  lemma EnterRecords(h: History)
    requires h.cmdline != ""
    ensures var t := Enter(h, false);
            && NoRepeats(t.log) && t.log != [] && t.log[|t.log| - 1] == h.cmdline
            && (forall s :: s in t.log <==> s in h.log || s == h.cmdline)
            && t.index == 0 && t.cmdline == "" && t.recorded == h.recorded
    ensures NoRepeats(h.log) ==>
              Enter(h, false).log == if h.log != [] && h.log[|h.log| - 1] == h.cmdline then h.log else h.log + [h.cmdline]
  {
    DedupMeaning(h.log + [h.cmdline]);
    if NoRepeats(h.log) {
      DedupMeaning(h.log);
      if h.log != [] && h.log[|h.log| - 1] == h.cmdline {
        assert (h.log + [h.cmdline])[..|h.log|] == h.log;
      } else {
        assert NoRepeats(h.log + [h.cmdline]);
      }
    }
  }

  /** Enter on an empty line, and both keys while a job is in the foreground, leave the history alone; Ctrl+C
      at a prompt clears line and index and nothing else. */
  lemma KeysElse(h: History)
    ensures Enter(h, true) == h && CtrlC(h, true) == h && (h.cmdline == "" ==> Enter(h, false) == h)
    ensures var t := CtrlC(h, false); t.cmdline == "" && t.index == 0 && t.log == h.log && t.recorded == h.recorded
  {
  }

  // ----- every run stays in range

  datatype Key = UpKey | DownKey | EnterKey(foreground: bool) | CtrlCKey(foreground: bool) | Edit(cmdline: string)

  function Press(h: History, k: Key): (h': History)
    requires InRange(h)
    ensures InRange(h')
  {
    match k
    case UpKey => Up(h)
    case DownKey => Down(h)
    case EnterKey(fg) => Enter(h, fg)
    case CtrlCKey(fg) => CtrlC(h, fg)
    case Edit(s) => h.(cmdline := s)
  }

  function PressAll(h: History, ks: seq<Key>): (h': History)
    requires InRange(h)
    ensures InRange(h')
  {
    if ks == [] then h else Press(PressAll(h, ks[..|ks| - 1]), ks[|ks| - 1])
  }

  function Ups(h: History, k: nat): (h': History)
    requires InRange(h)
    ensures InRange(h')
  {
    if k == 0 then h else Up(Ups(h, k - 1))
  }

  function Downs(h: History, k: nat): (h': History)
    requires InRange(h)
    ensures InRange(h')
  {
    if k == 0 then h else Down(Downs(h, k - 1))
  }

  // ----- navigating back and forth

  /** Looking at the entry `i` back. */
  function Browse(log: seq<string>, i: nat, recorded: bool): (h: History)
    requires 1 <= i <= |log|
    ensures InRange(h)
  {
    History(log, i, Entry(log, i), recorded)
  }

  function Least(a: nat, b: nat): nat {
    if a < b then a else b
  }

  /** From the prompt, `k` Ups look `k` entries back, or at the oldest; an unfinished line counts as
      the most recent entry. */
  lemma {:induction false} UpsBrowse(h: History, k: nat)
    requires InRange(h) && h.index == 0 && h.log != [] && k >= 1
    ensures Ups(h, k) == if h.cmdline == "" then Browse(h.log, Least(k, |h.log|), h.recorded)
                         else Browse(h.log + [h.cmdline], Least(k, |h.log|) + 1, true)
  {
    if k > 1 { UpsBrowse(h, k - 1); } else { assert Ups(h, 1) == Up(Ups(h, 0)); }
  }

  /** Where Downs end up: back at the prompt, with the last entry taken off the log if the flag says
      it is the unfinished line. */
  function Prompt(log: seq<string>, recorded: bool): (h: History)
    requires log != []
  {
    if recorded then History(log[..|log| - 1], 0, Entry(log, 1), false) else History(log, 0, "", false)
  }

  lemma {:induction false} DownsBrowse(log: seq<string>, i: nat, recorded: bool, k: nat)
    requires 1 <= i <= |log|
    ensures Downs(Browse(log, i, recorded), k)
         == if k < i then Browse(log, i - k, recorded) else Prompt(log, recorded)
  {
    if k > 0 { DownsBrowse(log, i, recorded, k - 1); }
  }

  /** What k Ups and then more than k Downs do to a prompt, in every case. */
  lemma UpsDowns(h: History, k: nat, j: nat)
    requires InRange(h) && h.index == 0 && k >= 1 && j > k
    ensures Downs(Ups(h, k), j) ==
            if h.log == [] then h
            else if h.cmdline == "" then Prompt(h.log, h.recorded)
            else h.(recorded := false)
  {
    if h.log == [] {
      UpsNothing(h, k);
      DownsNothing(h, j);
    } else {
      UpsBrowse(h, k);
      if h.cmdline == "" {
        DownsBrowse(h.log, Least(k, |h.log|), h.recorded, j);
      } else {
        DownsBrowse(h.log + [h.cmdline], Least(k, |h.log|) + 1, true, j);
        assert (h.log + [h.cmdline])[..|h.log|] == h.log;
      }
    }
  }

  lemma {:induction false} UpsNothing(h: History, k: nat)
    requires h.index == 0 && h.log == []
    ensures Ups(h, k) == h
  {
    if k > 0 { UpsNothing(h, k - 1); }
  }

  lemma {:induction false} DownsNothing(h: History, k: nat)
    requires InRange(h) && h.index == 0
    ensures Downs(h, k) == h
  {
    if k > 0 { DownsNothing(h, k - 1); }
  }

  /** Going up and back down restores everything exactly when the flag was clear or there was no
      history; it restores log, line and index exactly when, besides, the line was not empty. */
  lemma NavigationRestores(h: History, k: nat, j: nat)
    requires InRange(h) && h.index == 0 && k >= 1 && j > k
    ensures Downs(Ups(h, k), j) == h <==> !h.recorded || h.log == []
    ensures Downs(Ups(h, k), j).(recorded := h.recorded) == h
        <==> !h.recorded || h.log == [] || h.cmdline != ""
  {
    UpsDowns(h, k, j);
    if h.log != [] { assert |h.log[..|h.log| - 1]| < |h.log|; }
  }

  /** A stale flag costs the history its last entry. */
  lemma HistoryLost(h: History, k: nat, j: nat)
    requires InRange(h) && h.index == 0 && h.recorded && h.cmdline == "" && h.log != [] && k >= 1 && j > k
    ensures Downs(Ups(h, k), j).log == h.log[..|h.log| - 1]
  {
    UpsDowns(h, k, j);
  }

  /** The flag survives Enter, so such a state is reachable: run `a`, type `b`, go Up, run `a` again. */
  lemma StaleFlagReached()
    ensures var ran := Press(Press(INIT, Edit("a")), EnterKey(false));
            var again := Press(Press(Press(ran, Edit("b")), UpKey), EnterKey(false));
            again == History(["a", "b", "a"], 0, "", true)
  {
    assert [] + ["a"] == ["a"] && Dedup(["a"]) == ["a"];
    assert ["a", "b"] + ["a"] == ["a", "b", "a"];
    DedupStep(["a"], "b");
    DedupStep(["a", "b"], "a");
  }

  lemma DedupStep(log: seq<string>, s: string)
    requires log != [] && log[|log| - 1] != s
    ensures Dedup(log + [s]) == Dedup(log) + [s]
  {
  }

  // ----- the shell's own fields

  class Shell {
    var commandHistory: seq<string>
    var historyIndex: nat
    var cmdline: string
    var bufferedCmdRecorded: bool

    ghost function View(): History
      reads this
    {
      History(commandHistory, historyIndex, cmdline, bufferedCmdRecorded)
    }

    constructor ()
      ensures View() == INIT
    {
      commandHistory, historyIndex, cmdline, bufferedCmdRecorded := [], 0, "", false;
    }

    method GotoPreviousCommand()
      requires InRange(View())
      modifies this
      ensures View() == Up(old(View()))
    {
      if historyIndex == |commandHistory| {
        return;
      }
      if historyIndex == 0 {
        var previousInput := cmdline;
        if previousInput != "" {
          commandHistory := commandHistory + [previousInput];
          historyIndex := historyIndex + 1;
          bufferedCmdRecorded := true;
        }
      }
      historyIndex := historyIndex + 1;
      cmdline := commandHistory[|commandHistory| - historyIndex];
    }

    method GotoNextCommand()
      requires InRange(View())
      modifies this
      ensures View() == Down(old(View()))
    {
      if historyIndex == 0 {
        return;
      }
      if historyIndex == 1 && bufferedCmdRecorded {
        var selected := commandHistory[|commandHistory| - 1];
        commandHistory := commandHistory[..|commandHistory| - 1];
        cmdline := selected;
        historyIndex := historyIndex - 1;
        bufferedCmdRecorded := false;
        return;
      }
      historyIndex := historyIndex - 1;
      if historyIndex == 0 {
        cmdline := "";
        return;
      }
      cmdline := commandHistory[|commandHistory| - historyIndex];
    }

    /** The history part of Enter; the command line has been run or rejected. */
    method PressEnter(foreground: bool)
      requires InRange(View())
      modifies this
      ensures View() == Enter(old(View()), foreground)
    {
      if cmdline == "" && !foreground {
        return;
      } else if foreground {
        return;
      }
      commandHistory := commandHistory + [cmdline];
      commandHistory := Dedup(commandHistory);
      historyIndex := 0;
      cmdline := "";
    }

    /** The history part of Ctrl+C. */
    method PressCtrlC(foreground: bool)
      requires InRange(View())
      modifies this
      ensures View() == CtrlC(old(View()), foreground)
    {
      if !foreground {
        cmdline := "";
        historyIndex := 0;
      }
    }
  }
}
