/** The machine at the next command of a placed script: pass what is blank, make one step. */
module Advance {
  import opened ControlState
  import opened Structured
  import opened Machine
  import opened Placement
  import opened Steps

  lemma Go(fetch: Image, ignore: bool, m: Machine, m': Machine)
    requires m.status == Running && StepOn(fetch(m.pc), ignore, m) == m'
    ensures Reaches(fetch, ignore, m, m')
  {
    ReachesStep(fetch, ignore, m, m');
  }

  /** How a command is written: on its own, or right after the keyword that opens its block. */
  datatype Lead = Alone | After(opener: Word)

  function LeadWords(lead: Lead, words: Command): Command {
    if lead.After? then [lead.opener] + words else words
  }

  /** The state in which the command itself is looked at. */
  function Led(lead: Lead, m: Machine): Machine {
    if lead.After? then m.(np := Opened(m.np, lead.opener)) else m
  }

  ghost predicate CanLead(lead: Lead, m: Machine) {
    if lead.After? then Opens(m, lead.opener) else Ready(m)
  }

  /** An `if` can follow only `do`. */
  ghost predicate CanLeadIf(lead: Lead, m: Machine) {
    CanLead(lead, m) && (lead.After? ==> lead.opener == Do)
  }

  lemma LedReady(lead: Lead, m: Machine)
    requires CanLead(lead, m)
    ensures Ready(Led(lead, m))
  {
  }

  lemma LedStep(f: Fetched, ignore: bool, m: Machine, lead: Lead, words: Command)
    requires CanLead(lead, m) && f.Fetched? && f.words == LeadWords(lead, words)
    requires Simple(words) || words == [Break]
    ensures StepOn(f, ignore, m) == StepOn(f.(words := words), ignore, Led(lead, m))
  {
    if lead.After? {
      StepFused(f, ignore, m, lead.opener, words);
    } else {
      assert f.(words := words) == f;
    }
  }

  lemma LedSkip(f: Fetched, ignore: bool, m: Machine, lead: Lead, words: Command)
    requires CanLead(lead, m) && !Led(lead, m).np.Enabled() && (Simple(words) || words == [Break])
    requires f.Fetched? && f.words == LeadWords(lead, words)
    ensures StepOn(f, ignore, m) == Led(lead, m).(pc := f.next)
  {
    LedReady(lead, m);
    LedStep(f, ignore, m, lead, words);
    StepSkip(f.(words := words), ignore, Led(lead, m));
  }

  lemma LedPlain(f: Fetched, ignore: bool, m: Machine, lead: Lead, words: Command)
    requires CanLead(lead, m) && Led(lead, m).np.Enabled() && Simple(words)
    requires f.Fetched? && f.words == LeadWords(lead, words)
    ensures StepOn(f, ignore, m) == Ran(ignore, m, Led(lead, m).np, f.next, words)
  {
    LedReady(lead, m);
    LedStep(f, ignore, m, lead, words);
    StepPlain(f.(words := words), ignore, Led(lead, m));
  }

  /** The machine after an ordinary command in the state `np`. */
  function Ran(ignore: bool, m: Machine, np: Parser, pc: nat, words: Command): Machine {
    if m.results == [] then m.(np := np, pc := pc, status := Starved)
    else
      Machine(np.(fail := m.results[0]), pc, m.results[1..], m.trace + [Event(words, m.results[0])],
              if m.results[0] && !ignore then Failed else Running)
  }

  lemma LedBreak(f: Fetched, ignore: bool, m: Machine, lead: Lead)
    requires CanLead(lead, m) && Led(lead, m).np.Enabled()
    requires var np := Led(lead, m).np; np.TopLoop().state == LoopDo ==> np.TopLoop().iendx == np.iendx
    requires f.Fetched? && f.words == LeadWords(lead, [Break])
    ensures StepOn(f, ignore, m) == Left(m, Led(lead, m).np, f.next)
  {
    LedReady(lead, m);
    LedStep(f, ignore, m, lead, [Break]);
    StepBreak(f.(words := [Break]), ignore, Led(lead, m));
  }

  /** The machine after `break` in the state `np`. */
  function Left(m: Machine, np: Parser, pc: nat): Machine {
    m.(np := (if np.TopLoop().state == LoopDo then Broken(np) else np).(fail := false),
       pc := pc, trace := m.trace + [Event([Break], false)])
  }

  // One step at the command itself.

  lemma GoSkip(fetch: Image, ignore: bool, m: Machine, lead: Lead, words: Command)
    requires CanLead(lead, m) && !Led(lead, m).np.Enabled() && (Simple(words) || words == [Break])
    requires fetch(m.pc).Fetched? && fetch(m.pc).words == LeadWords(lead, words)
    ensures Reaches(fetch, ignore, m, Led(lead, m).(pc := fetch(m.pc).next))
  {
    LedSkip(fetch(m.pc), ignore, m, lead, words);
    Go(fetch, ignore, m, Led(lead, m).(pc := fetch(m.pc).next));
  }

  lemma GoPlain(fetch: Image, ignore: bool, m: Machine, lead: Lead, words: Command)
    requires CanLead(lead, m) && Led(lead, m).np.Enabled() && Simple(words)
    requires fetch(m.pc).Fetched? && fetch(m.pc).words == LeadWords(lead, words)
    ensures Reaches(fetch, ignore, m, Ran(ignore, m, Led(lead, m).np, fetch(m.pc).next, words))
  {
    LedPlain(fetch(m.pc), ignore, m, lead, words);
    Go(fetch, ignore, m, Ran(ignore, m, Led(lead, m).np, fetch(m.pc).next, words));
  }

  lemma GoBreak(fetch: Image, ignore: bool, m: Machine, lead: Lead)
    requires CanLead(lead, m) && Led(lead, m).np.Enabled()
    requires var np := Led(lead, m).np; np.TopLoop().state == LoopDo ==> np.TopLoop().iendx == np.iendx
    requires fetch(m.pc).Fetched? && fetch(m.pc).words == LeadWords(lead, [Break])
    ensures Reaches(fetch, ignore, m, Left(m, Led(lead, m).np, fetch(m.pc).next))
  {
    LedBreak(fetch(m.pc), ignore, m, lead);
    Go(fetch, ignore, m, Left(m, Led(lead, m).np, fetch(m.pc).next));
  }

  lemma GoOpener(fetch: Image, ignore: bool, m: Machine, opener: Word)
    requires Opens(m, opener) && fetch(m.pc).Fetched? && fetch(m.pc).words == [opener]
    ensures Reaches(fetch, ignore, m, Led(After(opener), m).(pc := fetch(m.pc).next))
  {
    StepOpener(fetch(m.pc), ignore, m, opener);
    Go(fetch, ignore, m, Led(After(opener), m).(pc := fetch(m.pc).next));
  }

  lemma LedIf(f: Fetched, ignore: bool, m: Machine, lead: Lead, inverted: bool, cond: Command)
    requires CanLeadIf(lead, m) && Led(lead, m).np.iendx + 1 < |m.np.ie| && Simple(cond)
    requires f.Fetched? && f.words == LeadWords(lead, IfWords(inverted, cond))
    ensures StepOn(f, ignore, m) == IfOpened(Led(lead, m), inverted, cond, f.next)
  {
    var words := IfWords(inverted, cond);
    LedReady(lead, m);
    if lead.After? {
      StepFusedIf(f, ignore, m, words);
    } else {
      assert f.(words := words) == f;
    }
    StepIf(f.(words := words), ignore, Led(lead, m), inverted, cond);
  }

  lemma GoIf(fetch: Image, ignore: bool, m: Machine, lead: Lead, inverted: bool, cond: Command)
    requires CanLeadIf(lead, m) && Led(lead, m).np.iendx + 1 < |m.np.ie| && Simple(cond)
    requires fetch(m.pc).Fetched? && fetch(m.pc).words == LeadWords(lead, IfWords(inverted, cond))
    ensures Reaches(fetch, ignore, m, IfOpened(Led(lead, m), inverted, cond, fetch(m.pc).next))
  {
    LedIf(fetch(m.pc), ignore, m, lead, inverted, cond);
    Go(fetch, ignore, m, IfOpened(Led(lead, m), inverted, cond, fetch(m.pc).next));
  }

  lemma GoLoop(fetch: Image, ignore: bool, m: Machine, until: bool, cond: Command)
    requires Ready(m) && m.np.lpndx + 1 < |m.np.lp| && Simple(cond)
    requires fetch(m.pc).Fetched? && fetch(m.pc).words == LoopWords(until, cond) && fetch(m.pc).top == m.pc
    ensures Reaches(fetch, ignore, m, LoopOpened(m, until, cond, m.pc, fetch(m.pc).next))
  {
    StepLoopHead(fetch(m.pc), ignore, m, until, cond);
    Go(fetch, ignore, m, LoopOpened(m, until, cond, m.pc, fetch(m.pc).next));
  }

  lemma GoFi(fetch: Image, ignore: bool, m: Machine)
    requires m.status == Running && !m.np.jump && !m.np.AwaitsCondition() && m.np.iendx >= 1
    requires m.np.TopIf().state == ItefThen || m.np.TopIf().state == ItefElse
    requires fetch(m.pc).Fetched? && fetch(m.pc).words == [Fi]
    ensures Reaches(fetch, ignore, m, m.(np := m.np.(iendx := m.np.iendx - 1), pc := fetch(m.pc).next))
  {
    StepFi(fetch(m.pc), ignore, m);
    Go(fetch, ignore, m, m.(np := m.np.(iendx := m.np.iendx - 1), pc := fetch(m.pc).next));
  }

  /** The machine after `done`. */
  function LoopClosed(m: Machine, next: nat): Machine
    requires m.np.lpndx >= 1
  {
    m.(np := CloseLoop(m.np).(jump := false),
       pc := if m.np.TopLoop().enable then m.np.TopLoop().topoffs else next)
  }

  lemma GoDone(fetch: Image, ignore: bool, m: Machine)
    requires m.status == Running && !m.np.jump && m.np.lpndx >= 1 && m.np.TopLoop().state == LoopDo
    requires fetch(m.pc).Fetched? && fetch(m.pc).words == [Done]
    ensures Reaches(fetch, ignore, m, LoopClosed(m, fetch(m.pc).next))
  {
    StepDone(fetch(m.pc), ignore, m);
    Go(fetch, ignore, m, LoopClosed(m, fetch(m.pc).next));
  }

  // Pass what is blank, then make the step.

  lemma DoSkip(fetch: Image, ignore: bool, m: Machine, lead: Lead, words: Command, rest: seq<Command>, q: nat)
      returns (m': Machine)
    requires CanLead(lead, m) && !Led(lead, m).np.Enabled() && (Simple(words) || words == [Break])
    requires Stands(fetch, m.pc, [LeadWords(lead, words)] + rest, q)
    ensures Reaches(fetch, ignore, m, m') && m' == Led(lead, m).(pc := m'.pc)
    ensures Stands(fetch, m'.pc, rest, q)
  {
    var m1 := Locate(fetch, ignore, m, LeadWords(lead, words), rest, q);
    GoSkip(fetch, ignore, m1, lead, words);
    m' := Led(lead, m1).(pc := fetch(m1.pc).next);
    ReachesTrans(fetch, ignore, m, m1, m');
  }

  lemma DoPlain(fetch: Image, ignore: bool, m: Machine, lead: Lead, words: Command, rest: seq<Command>, q: nat)
      returns (m': Machine)
    requires CanLead(lead, m) && Led(lead, m).np.Enabled() && Simple(words)
    requires Stands(fetch, m.pc, [LeadWords(lead, words)] + rest, q)
    ensures Reaches(fetch, ignore, m, m') && Stands(fetch, m'.pc, rest, q)
    ensures m' == Ran(ignore, m, Led(lead, m).np, m'.pc, words)
  {
    var m1 := Locate(fetch, ignore, m, LeadWords(lead, words), rest, q);
    GoPlain(fetch, ignore, m1, lead, words);
    m' := Ran(ignore, m1, Led(lead, m1).np, fetch(m1.pc).next, words);
    ReachesTrans(fetch, ignore, m, m1, m');
  }

  lemma DoBreak(fetch: Image, ignore: bool, m: Machine, lead: Lead, rest: seq<Command>, q: nat) returns (m': Machine)
    requires CanLead(lead, m) && Led(lead, m).np.Enabled()
    requires var np := Led(lead, m).np; np.TopLoop().state == LoopDo ==> np.TopLoop().iendx == np.iendx
    requires Stands(fetch, m.pc, [LeadWords(lead, [Break])] + rest, q)
    ensures Reaches(fetch, ignore, m, m') && Stands(fetch, m'.pc, rest, q)
    ensures m' == Left(m, Led(lead, m).np, m'.pc)
  {
    var m1 := Locate(fetch, ignore, m, LeadWords(lead, [Break]), rest, q);
    GoBreak(fetch, ignore, m1, lead);
    m' := Left(m1, Led(lead, m1).np, fetch(m1.pc).next);
    ReachesTrans(fetch, ignore, m, m1, m');
  }

  lemma DoOpener(fetch: Image, ignore: bool, m: Machine, opener: Word, rest: seq<Command>, q: nat) returns (m': Machine)
    requires Opens(m, opener)
    requires Stands(fetch, m.pc, [[opener]] + rest, q)
    ensures Reaches(fetch, ignore, m, m') && Stands(fetch, m'.pc, rest, q)
    ensures m' == Led(After(opener), m).(pc := m'.pc)
  {
    var m1 := Locate(fetch, ignore, m, [opener], rest, q);
    GoOpener(fetch, ignore, m1, opener);
    m' := Led(After(opener), m1).(pc := fetch(m1.pc).next);
    ReachesTrans(fetch, ignore, m, m1, m');
  }

  /** Where the command was found does not matter behind it. */
  lemma OpenedFrom(lead: Lead, m: Machine, m1: Machine, inverted: bool, cond: Command, next: nat)
    requires m1 == m.(pc := m1.pc)
    ensures IfOpened(Led(lead, m1), inverted, cond, next) == IfOpened(Led(lead, m), inverted, cond, next)
    ensures IfOpened(Led(lead, m), inverted, cond, next).pc == next
  {
  }

  lemma DoIf(fetch: Image, ignore: bool, m: Machine, lead: Lead, inverted: bool, cond: Command, rest: seq<Command>,
             q: nat) returns (m': Machine)
    requires CanLeadIf(lead, m) && Led(lead, m).np.iendx + 1 < |m.np.ie| && Simple(cond)
    requires Stands(fetch, m.pc, [LeadWords(lead, IfWords(inverted, cond))] + rest, q)
    ensures Reaches(fetch, ignore, m, m') && Stands(fetch, m'.pc, rest, q)
    ensures m' == IfOpened(Led(lead, m), inverted, cond, m'.pc)
  {
    var m1 := Locate(fetch, ignore, m, LeadWords(lead, IfWords(inverted, cond)), rest, q);
    GoIf(fetch, ignore, m1, lead, inverted, cond);
    var next := fetch(m1.pc).next;
    m' := IfOpened(Led(lead, m1), inverted, cond, next);
    OpenedFrom(lead, m, m1, inverted, cond, next);
    ReachesTrans(fetch, ignore, m, m1, m');
  }

  lemma DoFi(fetch: Image, ignore: bool, m: Machine, q: nat) returns (m': Machine)
    requires m.status == Running && !m.np.jump && !m.np.AwaitsCondition() && m.np.iendx >= 1
    requires m.np.TopIf().state == ItefThen || m.np.TopIf().state == ItefElse
    requires Stands(fetch, m.pc, [[Fi]], q)
    ensures Reaches(fetch, ignore, m, m')
    ensures m' == m.(np := m.np.(iendx := m.np.iendx - 1), pc := q)
  {
    assert [[Fi]] == [[Fi]] + [];
    var m1 := Locate(fetch, ignore, m, [Fi], [], q);
    GoFi(fetch, ignore, m1);
    var m2 := m1.(np := m.np.(iendx := m.np.iendx - 1), pc := fetch(m1.pc).next);
    ReachesTrans(fetch, ignore, m, m1, m2);
    m' := PassBlank(fetch, ignore, m2, q);
    ReachesTrans(fetch, ignore, m, m2, m');
  }

  /** `p` is the offset of the command itself: the place `done` comes back to. */
  lemma DoLoop(fetch: Image, ignore: bool, m: Machine, until: bool, cond: Command, rest: seq<Command>, q: nat)
      returns (m': Machine, p: nat)
    requires Ready(m) && m.np.lpndx + 1 < |m.np.lp| && Simple(cond)
    requires Stands(fetch, m.pc, [LoopWords(until, cond)] + rest, q)
    ensures Reaches(fetch, ignore, m, m') && Stands(fetch, m'.pc, rest, q)
    ensures Stands(fetch, p, [LoopWords(until, cond)] + rest, q)
    ensures m' == LoopOpened(m, until, cond, p, m'.pc)
  {
    var m1 := Locate(fetch, ignore, m, LoopWords(until, cond), rest, q);
    p := m1.pc;
    GoLoop(fetch, ignore, m1, until, cond);
    m' := LoopOpened(m1, until, cond, p, fetch(m1.pc).next);
    ReachesTrans(fetch, ignore, m, m1, m');
  }

  lemma DoDone(fetch: Image, ignore: bool, m: Machine, q: nat) returns (m': Machine)
    requires m.status == Running && !m.np.jump && m.np.lpndx >= 1 && m.np.TopLoop().state == LoopDo
    requires Stands(fetch, m.pc, [[Done]], q)
    ensures Reaches(fetch, ignore, m, m')
    ensures m' == LoopClosed(m, q)
  {
    assert [[Done]] == [[Done]] + [];
    var m1 := Locate(fetch, ignore, m, [Done], [], q);
    GoDone(fetch, ignore, m1);
    m' := LoopClosed(m1, fetch(m1.pc).next);
    ReachesTrans(fetch, ignore, m, m1, m');
    if !m.np.TopLoop().enable {
      var m2 := m';
      m' := PassBlank(fetch, ignore, m2, q);
      ReachesTrans(fetch, ignore, m, m2, m');
    }
  }
}
