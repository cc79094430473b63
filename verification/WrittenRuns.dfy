// Runs of the code as it stands, from any state in real mode on.  Every trap brings its own stale
// address, and every rfi reloads the map; the windows stay what reloads of the current BATs
// leave, and agree with them exactly when the instruction tables list them.
module WrittenRuns {
  import opened Words
  import opened Bat
  import opened MemMap
  import opened MemTheorems
  import opened MapAgreement
  import opened ModeSwitch
  import opened Spr
  import opened Decoder
  import opened Machine
  import opened MachineTheorems
  import opened RunAgreement
  import opened WrittenAgreement

  /** Every live page is accounted for and no window was ever overwritten. */
  ghost predicate NothingLost(s: State)
    requires s.Shaped()
  {
    Accounted(s.env.console, s.windows) && s.windows.lost == {}
  }

  /** rfi from real mode into translation, with either reading: when it does not fail, every granted
      byte that well-formed BATs name is mapped where they name it if each active instruction
      BAT's granted window is asked for; and only if, when no window was ever overwritten. */
  lemma RfiServesWritten(s: State)
    requires StateInv(s) && !s.fatal && !s.Translating() && WellFormed(s.env.console, s.cpu.bats)
    requires Bit(s.cpu.srr1, MSR_IR) && !Step(s, RFI_WORD).fatal
    ensures var s', t := Step(s, RFI_WORD), WipeTables(s.windows.t, MaxBat(s.env.console));
            && t.Shaped() && s'.Translating() && s'.cpu.bats == s.cpu.bats
            && (AllPlaced(s.env, s.reading, s.cpu.bats, t) ==> AllNamed(s.env, s.cpu.bats, s'.windows.host))
            && (NothingLost(s) ==>
                  (AllNamed(s.env, s.cpu.bats, s'.windows.host) <==> AllPlaced(s.env, s.reading, s.cpu.bats, t)))
  {
    RfiValid(s.cpu);
    SwitchServesWritten(s.env, s.reading, s.cpu.bats, s.windows);
  }

  /** BAT windows are what reloads of the BATs leave, and with clean nothing is lost. */
  ghost predicate WrittenState(s: State, clean: bool) {
    && s.Shaped()
    && (!s.fatal ==>
          && (clean ==> NothingLost(s))
          && (s.batWindows ==>
                && Loaded(s.env, s.cpu.bats, s.windows) && NoStrangers(s.env.console, s.cpu.bats)
                && DataDone(s.env, s.cpu.bats, s.windows.t, MaxBat(s.env.console))
                && (clean ==> Tidy(s.env.console, s.windows))))
  }

  /** The windows a reload starts from: those of the same BATs, or none. */
  lemma UpdateWritten(s: State, was: bool, clean: bool)
    requires s.Shaped() && s.batWindows == was && (clean ==> NothingLost(s))
    requires was && s.Translating() ==>
               Loaded(s.env, s.cpu.bats, s.windows) && (clean ==> Tidy(s.env.console, s.windows))
    ensures WrittenState(Update(s, was), clean)
  {
    var e, c, b := s.env, s.env.console, s.cpu.bats;
    if s.cpu.InstrTranslation() == s.cpu.DataTranslation() && !Update(s, was).fatal {
      if s.Translating() {
        var m1 := if was then s.windows else UnmapAll(c, MaxBat(c), s.windows);
        WipedUnused(s.windows.t, MaxBat(c));
        if !was {
          UnusedLoaded(e, b, m1);
          if clean {
            UnmapLeavesLost(c, s.windows);
          }
        }
        ReloadAgrees(e, s.reading, b, m1);
      } else if was && clean {
        ToRealInv(e, s.reading, s.windows);
      }
    }
  }

  lemma StepWritten(s: State, w: Word, clean: bool)
    requires StateInv(s) && WrittenState(s, clean)
    requires !s.fatal ==> Agrees(s) && !(s.Translating() && WritesBat(Decode(w)))
    ensures WrittenState(Step(s, w), clean)
  {
    if !s.fatal {
      var i := Decode(w);
      var s1 := Execute(s, i);
      ExecuteCurrent(s, i);
      if s1.needsUpdate && !s1.fatal {
        UpdateWritten(s1, s.Translating(), clean);
      }
    }
  }

  lemma {:induction false} RunWritten(s: State, ts: seq<Trap>, clean: bool)
    requires StateInv(s) && Trace(ts) && !s.fatal && !s.Translating() && Agrees(s) && (clean ==> NothingLost(s))
    requires NeverToggles(s, ts) && NeverRewrites(s, ts)
    ensures var q := Run(s, ts);
            StateInv(q) && WrittenState(q, clean) && (!q.fatal ==> Agrees(q))
  {
    if ts != [] {
      var t, ts' := ts[|ts| - 1], ts[..|ts| - 1];
      RunWritten(s, ts', clean);
      var q := Enter(Run(s, ts'), t);
      MachineTheorems.StepInv(q, t.word);
      StepWritten(q, t.word, clean);
      if !q.fatal && !Step(q, t.word).fatal {
        StepAgrees(q, t.word);
      }
    }
  }

  /** Over every run from a state in real mode that switches translation by rfi only and writes BATs
      in real mode only, with either reading and any junk on the stack: in a translating state
      with well-formed BATs every granted byte they name is mapped where they name it if the
      instruction tables list each active instruction BAT's granted window.  If no window had been
      overwritten before, only then; and nothing else is mapped if and only if an active BAT
      vouches for every window. */
  lemma RunServesWritten(s: State, ts: seq<Trap>)
    requires StateInv(s) && Trace(ts) && !s.fatal && !s.Translating() && Agrees(s)
    requires NeverToggles(s, ts) && NeverRewrites(s, ts)
    requires var q := Run(s, ts); !q.fatal && q.Translating() && WellFormed(s.env.console, q.cpu.bats)
    ensures var q := Run(s, ts);
            && (AllListed(s.env, q.cpu.bats, q.windows.t) ==> AllNamed(s.env, q.cpu.bats, q.windows.host))
            && (NothingLost(s) ==>
                  && (AllNamed(s.env, q.cpu.bats, q.windows.host) <==> AllListed(s.env, q.cpu.bats, q.windows.t))
                  && (OnlyNamed(s.env.console, q.cpu.bats, q.windows.host)
                      <==> EntriesVouched(s.env, q.cpu.bats, q.windows.t)))
  {
    var q := Run(s, ts);
    RunWritten(s, ts, NothingLost(s));
    LoadedAgrees(s.env, q.cpu.bats, q.windows);
    if NothingLost(s) {
      LoadedOnlyNamed(s.env, q.cpu.bats, q.windows);
    }
  }
}
