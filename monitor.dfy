/**
 * The command interpreter of the kernel monitor (kern/monitor.c): `runcmd` splits the line in place
 * into whitespace-separated arguments and dispatches on the first one through the command table;
 * `monitor` runs lines until a command returns a negative value. Two commands are modelled in
 * part: the PTE update of `mon_setpermbits` and the argument checks and page walk of
 * `mon_showmappings`.
 *
 * What the commands do is a parameter `run` (command index and arguments to result); `readline`,
 * `strtol`, `str2pageperm` and `page_lookup` are parameters too, and printing is left out.
 */
module Monitor {
  import opened Outcomes
  import opened Bits
  import Mmu

  // ---------------------------------------------------------------------------------------------
  // C strings

  /** The characters of the C string starting at `s[i]`: up to the first NUL, or the end of `s`. */
  function CString(s: seq<char>, i: nat): (r: seq<char>)
    requires i <= |s|
    ensures i + |r| <= |s|
    ensures forall k :: 0 <= k < |r| ==> r[k] == s[i + k] && r[k] != '\0'
    ensures i + |r| < |s| ==> s[i + |r|] == '\0'
    ensures i < |s| && s[|s| - 1] == '\0' ==> i + |r| < |s|
    decreases |s| - i
  {
    if i == |s| || s[i] == '\0' then [] else [s[i]] + CString(s, i + 1)
  }

  /** The line held in a NUL-terminated command buffer. */
  function Line(s: seq<char>): seq<char> {
    CString(s, 0)
  }

  /** In a buffer made of a line and its terminating NUL, the C string at `i` is the rest of the line. */
  lemma {:induction false} LineOfTerminated(line: seq<char>, i: nat)
    requires i <= |line|
    requires forall k :: 0 <= k < |line| ==> line[k] != '\0'
    ensures CString(line + ['\0'], i) == line[i..]
    decreases |line| - i
  {
    var s := line + ['\0'];
    if i < |line| {
      assert s[i] == line[i];
      LineOfTerminated(line, i + 1);
      assert line[i..] == [line[i]] + line[i + 1..];
    } else {
      assert s[i] == '\0';
    }
  }

  // ---------------------------------------------------------------------------------------------
  // Splitting a line into arguments

  /** `WHITESPACE`: the characters that separate arguments. */
  const WHITESPACE: seq<char> := "\t\r\n "

  /** The number of `argv` slots; at most `MAXARGS - 1` arguments are accepted. */
  const MAXARGS: nat := 16

  /** `strchr(WHITESPACE, c)` for a character `c` other than NUL. */
  predicate IsSpace(c: char) {
    c in WHITESPACE
  }

  /** Tab, carriage return, newline and space separate arguments, and nothing else does. */
  lemma SeparatorsAreExactlyFour(c: char)
    ensures IsSpace(c) ==> c == '\t' || c == '\r' || c == '\n' || c == ' '
    ensures c == '\t' || c == '\r' || c == '\n' || c == ' ' ==> IsSpace(c)
  {
  }

  /** An argument starts at `l[k]`: a separator or the start of the line precedes a non-separator. */
  predicate StartsToken(l: seq<char>, k: int)
    requires 0 <= k < |l|
  {
    !IsSpace(l[k]) && (k == 0 || IsSpace(l[k - 1]))
  }

  /** The positions at or after `i` where an argument of `l` starts, in increasing order. */
  function StartsFrom(l: seq<char>, i: nat): seq<nat>
    requires i <= |l|
    decreases |l| - i
  {
    if i == |l| then []
    else if StartsToken(l, i) then [i] + StartsFrom(l, i + 1)
    else StartsFrom(l, i + 1)
  }

  /** Only argument starts at or after `i` are listed, in increasing order. */
  lemma {:induction false} StartsFromSound(l: seq<char>, i: nat)
    requires i <= |l|
    ensures forall j :: 0 <= j < |StartsFrom(l, i)| ==>
              i <= StartsFrom(l, i)[j] < |l| && StartsToken(l, StartsFrom(l, i)[j])
    ensures forall j, j' :: 0 <= j < j' < |StartsFrom(l, i)| ==> StartsFrom(l, i)[j] < StartsFrom(l, i)[j']
    decreases |l| - i
  {
    if i < |l| {
      StartsFromSound(l, i + 1);
    }
  }

  /** Every argument start at or after `i` is listed. */
  lemma {:induction false} StartsFromComplete(l: seq<char>, i: nat, k: nat)
    requires i <= k < |l| && StartsToken(l, k)
    ensures k in StartsFrom(l, i)
    decreases k - i
  {
    if i < k {
      StartsFromComplete(l, i + 1, k);
    }
  }

  /** The positions where the arguments of `l` start. */
  function Starts(l: seq<char>): seq<nat> {
    StartsFrom(l, 0)
  }

  /** The argument starting at `l[k]`: the longest run of non-separators from there. */
  function WordAt(l: seq<char>, k: nat): (w: seq<char>)
    requires k <= |l|
    ensures k + |w| <= |l| && w == l[k..k + |w|]
    ensures forall j :: 0 <= j < |w| ==> !IsSpace(w[j])
    ensures k + |w| == |l| || IsSpace(l[k + |w|])
    decreases |l| - k
  {
    if k == |l| || IsSpace(l[k]) then [] else [l[k]] + WordAt(l, k + 1)
  }

  /** How `runcmd` reads a line: too many arguments, or the list of arguments. */
  datatype Parsed = TooManyArgs | Args(words: seq<seq<char>>)

  /** The arguments of the line `l`, or `TooManyArgs` when it has `MAXARGS` or more. */
  function Parse(l: seq<char>): Parsed {
    var st := Starts(l);
    StartsFromSound(l, 0);
    if |st| >= MAXARGS then TooManyArgs
    else Args(seq(|st|, i requires 0 <= i < |st| => WordAt(l, st[i])))
  }

  /** Every argument is non-empty and holds no separator, and a line has at most 15 of them. */
  lemma ArgumentsAreWords(l: seq<char>)
    ensures Parse(l).Args? ==> |Parse(l).words| < MAXARGS
    ensures Parse(l).Args? ==>
              forall i :: 0 <= i < |Parse(l).words| ==>
                Parse(l).words[i] != [] && forall j :: 0 <= j < |Parse(l).words[i]| ==> !IsSpace(Parse(l).words[i][j])
  {
    StartsFromSound(l, 0);
  }

  /** A line with no argument character parses to no arguments. */
  lemma BlankLineHasNoArguments(l: seq<char>)
    requires forall k :: 0 <= k < |l| ==> IsSpace(l[k])
    ensures Parse(l) == Args([])
  {
    NoStartsInBlank(l, 0);
  }

  /** Past position `i`, a line of separators has no argument start. */
  lemma {:induction false} NoStartsInBlank(l: seq<char>, i: nat)
    requires i <= |l|
    requires forall k :: 0 <= k < |l| ==> IsSpace(l[k])
    ensures StartsFrom(l, i) == []
    decreases |l| - i
  {
    if i < |l| {
      NoStartsInBlank(l, i + 1);
    }
  }

  /**
   * The command buffer `s` with the separators before position `stop` overwritten by NUL (`stop`
   * lies within the line, so no NUL is itself touched).
   */
  function Blanked(s: seq<char>, stop: nat): (b: seq<char>)
    ensures |b| == |s|
  {
    seq(|s|, k requires 0 <= k < |s| => if k < stop && IsSpace(s[k]) then '\0' else s[k])
  }

  /** Once every separator of the line is NUL, the C string at each position of the line is the argument there. */
  lemma {:induction false} BlankedWords(s: seq<char>, k: nat)
    requires |Line(s)| < |s| && k <= |Line(s)|
    ensures CString(Blanked(s, |Line(s)|), k) == WordAt(Line(s), k)
    decreases |Line(s)| - k
  {
    var l := Line(s);
    var b := Blanked(s, |l|);
    if k == |l| {
      assert b[k] == '\0';
    } else if IsSpace(l[k]) {
      assert b[k] == '\0';
    } else {
      assert b[k] == l[k] && l[k] != '\0';
      BlankedWords(s, k + 1);
    }
  }

  /** Passing over separators does not pass an argument start. */
  lemma {:induction false} StartsAfterSeparators(l: seq<char>, p: nat, q: nat)
    requires p <= q <= |l|
    requires forall k :: p <= k < q ==> IsSpace(l[k])
    ensures StartsFrom(l, p) == StartsFrom(l, q)
    decreases q - p
  {
    if p < q {
      StartsAfterSeparators(l, p + 1, q);
    }
  }

  /** Passing over the rest of an argument does not pass an argument start. */
  lemma {:induction false} StartsAfterArgument(l: seq<char>, p: nat, q: nat)
    requires 0 < p <= q <= |l|
    requires forall k :: p - 1 <= k < q ==> !IsSpace(l[k])
    ensures StartsFrom(l, p) == StartsFrom(l, q)
    decreases q - p
  {
    if p < q {
      StartsAfterArgument(l, p + 1, q);
    }
  }

  /** An `argv` entry: NULL, or a pointer into the command buffer. */
  datatype Ptr = Null | At(pos: nat)

  /**
   * The "gobble whitespace" loop of `runcmd`: from `buf[p]` on, overwrite separators with NUL
   * until a NUL or an argument character.
   */
  method SkipSeparators(buf: array<char>, p: nat, ghost s0: seq<char>) returns (q: nat)
    requires |s0| == buf.Length && |Line(s0)| < |s0| && p <= |Line(s0)|
    requires buf[..] == Blanked(s0, p)
    modifies buf
    ensures p <= q <= |Line(s0)| && buf[..] == Blanked(s0, q)
    ensures forall k :: p <= k < q ==> IsSpace(Line(s0)[k])
    ensures q == |Line(s0)| || !IsSpace(Line(s0)[q])
    ensures buf[q] == '\0' ==> q == |Line(s0)|
    ensures buf[q] != '\0' ==> q < |Line(s0)| && !IsSpace(Line(s0)[q])
  {
    ghost var l := Line(s0);
    q := p;
    while buf[q] != '\0' && IsSpace(buf[q])
      invariant p <= q <= |l|
      invariant buf[..] == Blanked(s0, q)
      invariant forall k :: p <= k < q ==> IsSpace(l[k])
      decreases |l| - q
    {
      buf[q] := '\0';
      q := q + 1;
    }
  }

  /** The loop of `runcmd` that scans past an argument: up to the next NUL or separator. */
  method SkipArgument(buf: array<char>, p: nat, ghost s0: seq<char>) returns (q: nat)
    requires |s0| == buf.Length && |Line(s0)| < |s0| && p < |Line(s0)| && !IsSpace(Line(s0)[p])
    requires buf[..] == Blanked(s0, p)
    ensures p < q <= |Line(s0)| && buf[..] == Blanked(s0, q)
    ensures forall k :: p <= k < q ==> !IsSpace(Line(s0)[k])
    ensures q == |Line(s0)| || IsSpace(Line(s0)[q])
  {
    ghost var l := Line(s0);
    q := p + 1;
    while buf[q] != '\0' && !IsSpace(buf[q])
      invariant p < q <= |l|
      invariant buf[..] == Blanked(s0, q)
      invariant forall k :: p <= k < q ==> !IsSpace(l[k])
      decreases |l| - q
    {
      q := q + 1;
    }
  }

  /**
   * From the end of an argument (or the start of the line), pass over separators, blanking them:
   * `found` tells whether another argument starts at `q`, the first argument start from `p` on.
   */
  method NextArgument(buf: array<char>, p: nat, ghost s0: seq<char>) returns (q: nat, found: bool)
    requires |s0| == buf.Length && |Line(s0)| < |s0| && p <= |Line(s0)|
    requires p == 0 || p == |Line(s0)| || IsSpace(Line(s0)[p])
    requires buf[..] == Blanked(s0, p)
    modifies buf
    ensures p <= q <= |Line(s0)| && buf[..] == Blanked(s0, q)
    ensures !found ==> q == |Line(s0)| && StartsFrom(Line(s0), p) == []
    ensures found ==> q < |Line(s0)| && !IsSpace(Line(s0)[q]) &&
                      StartsFrom(Line(s0), p) == [q] + StartsFrom(Line(s0), q + 1)
  {
    ghost var l := Line(s0);
    q := SkipSeparators(buf, p, s0);
    StartsAfterSeparators(l, p, q);
    found := buf[q] != '\0';
    if found {
      assert StartsToken(l, q);
    }
  }

  /** Scan past the argument starting at `q`; no argument starts inside it. */
  method PassArgument(buf: array<char>, q: nat, ghost s0: seq<char>) returns (p: nat)
    requires |s0| == buf.Length && |Line(s0)| < |s0| && q < |Line(s0)| && !IsSpace(Line(s0)[q])
    requires buf[..] == Blanked(s0, q)
    ensures q < p <= |Line(s0)| && buf[..] == Blanked(s0, p)
    ensures p == |Line(s0)| || IsSpace(Line(s0)[p])
    ensures StartsFrom(Line(s0), q + 1) == StartsFrom(Line(s0), p)
  {
    p := SkipArgument(buf, q, s0);
    StartsAfterArgument(Line(s0), q + 1, p);
  }

  /**
   * The argument-splitting loop of `runcmd` on the NUL-terminated buffer `buf`: each separator
   * passed over is overwritten by NUL, `argv[i]` points at the start of the `i`-th argument and
   * `argv[argc]` is NULL. On meeting a 16th argument it stops, with `tooMany`, leaving the
   * buffer from that argument on as it was.
   */
  method Tokenize(buf: array<char>, argv: array<Ptr>) returns (argc: int, tooMany: bool)
    requires 0 < buf.Length && buf[buf.Length - 1] == '\0' && argv.Length == MAXARGS
    modifies buf, argv
    ensures var st := Starts(Line(old(buf[..])));
            tooMany ==> |st| >= MAXARGS && buf[..] == Blanked(old(buf[..]), st[MAXARGS - 1])
    ensures var st := Starts(Line(old(buf[..])));
            !tooMany ==>
              argc == |st| < MAXARGS && argv[argc] == Null &&
              (forall i :: 0 <= i < argc ==> argv[i] == At(st[i])) &&
              buf[..] == Blanked(old(buf[..]), |Line(old(buf[..]))|)
  {
    ghost var s0 := buf[..];
    ghost var l := Line(s0);
    ghost var st := Starts(l);
    assert buf[..] == Blanked(s0, 0);
    argc := 0;
    argv[argc] := Null;
    ghost var done: seq<nat> := [];
    var q, found := NextArgument(buf, 0, s0);
    while found && argc < MAXARGS - 1
      invariant q <= |l| < buf.Length
      invariant buf[..] == Blanked(s0, q)
      invariant argc == |done| < MAXARGS
      invariant forall i :: 0 <= i < |done| ==> argv[i] == At(done[i])
      invariant found ==> q < |l| && !IsSpace(l[q]) && st == done + [q] + StartsFrom(l, q + 1)
      invariant !found ==> q == |l| && st == done
      decreases |l| - q
    {
      argv[argc] := At(q);
      argc := argc + 1;
      done := done + [q];
      var p := PassArgument(buf, q, s0);
      q, found := NextArgument(buf, p, s0);
    }
    tooMany := found;
    if !found {
      argv[argc] := Null;
    }
  }

  // ---------------------------------------------------------------------------------------------
  // The command table and dispatch

  /** An entry of the command table; what the command does is given separately, by its index. */
  datatype Command = Command(name: seq<char>, desc: seq<char>)

  /** The command table, in the order in which it is searched. */
  const Commands: seq<Command> := [
    Command("help", "Display this list of commands"),
    Command("kerninfo", "Display information about the kernel"),
    Command("backtrace", "Display stack backtrace"),
    Command("showmappings", "Display physical page mappings"),
    Command("setpermbits", "Set, clear, or change the permissions of any mapping in the current address space"),
    Command("dumpmem", "Dump the contents of a range of memory given either a virtual or physical address range")
  ]

  /** The first entry from `i` on whose name is `name`. */
  function LookupFrom(name: seq<char>, i: nat): (r: Option<nat>)
    requires i <= |Commands|
    ensures r.Some? ==> i <= r.value < |Commands| && Commands[r.value].name == name &&
                        forall j :: i <= j < r.value ==> Commands[j].name != name
    ensures r.None? ==> forall j :: i <= j < |Commands| ==> Commands[j].name != name
    decreases |Commands| - i
  {
    if i == |Commands| then None
    else if Commands[i].name == name then Some(i)
    else LookupFrom(name, i + 1)
  }

  /** The table entry that a command name selects, if any. */
  function Lookup(name: seq<char>): Option<nat> {
    LookupFrom(name, 0)
  }

  /** No two commands share a name, so the entry a name selects is the only one with that name. */
  lemma CommandNamesAreDistinct(name: seq<char>, j: nat)
    requires j < |Commands| && Commands[j].name == name
    ensures Lookup(name) == Some(j)
  {
  }

  /**
   * What `runcmd` returns for the line `l`, where `run(i, args)` is what the `i`-th command
   * returns on the argument list `args` (`argc` being `|args|`).
   */
  function RunLine(l: seq<char>, run: (nat, seq<seq<char>>) -> int): int {
    match Parse(l)
    case TooManyArgs => 0
    case Args(words) =>
      if words == [] then 0
      else match Lookup(words[0])
        case None => 0
        case Some(i) => run(i, words)
  }

  /** A line with 16 or more arguments is refused without running anything. */
  lemma TooManyArgumentsRunNothing(l: seq<char>, run: (nat, seq<seq<char>>) -> int)
    requires |Starts(l)| >= MAXARGS
    ensures RunLine(l, run) == 0
  {
  }

  /** An empty or all-separator line runs nothing. */
  lemma BlankLineRunsNothing(l: seq<char>, run: (nat, seq<seq<char>>) -> int)
    requires forall k :: 0 <= k < |l| ==> IsSpace(l[k])
    ensures RunLine(l, run) == 0
  {
    BlankLineHasNoArguments(l);
  }

  /** A first argument that names no command runs nothing. */
  lemma UnknownCommandRunsNothing(l: seq<char>, run: (nat, seq<seq<char>>) -> int)
    requires Parse(l).Args? && Parse(l).words != []
    requires forall j :: 0 <= j < |Commands| ==> Commands[j].name != Parse(l).words[0]
    ensures RunLine(l, run) == 0
  {
  }

  /** A first argument naming a command runs that command on all the arguments, itself included. */
  lemma NamedCommandRuns(l: seq<char>, run: (nat, seq<seq<char>>) -> int, j: nat)
    requires Parse(l).Args? && Parse(l).words != []
    requires j < |Commands| && Commands[j].name == Parse(l).words[0]
    ensures RunLine(l, run) == run(j, Parse(l).words)
  {
  }

  /**
   * The argument list that `argv[0..argc-1]` points at once the buffer is split: the C string at
   * each recorded position, which is the argument starting there.
   */
  method Arguments(buf: array<char>, argv: array<Ptr>, argc: nat, ghost s0: seq<char>) returns (args: seq<seq<char>>)
    requires |s0| == buf.Length && |Line(s0)| < |s0|
    requires argc == |Starts(Line(s0))| < MAXARGS <= argv.Length
    requires forall i :: 0 <= i < argc ==> argv[i] == At(Starts(Line(s0))[i])
    requires buf[..] == Blanked(s0, |Line(s0)|)
    ensures Parse(Line(s0)) == Args(args)
  {
    ghost var l := Line(s0);
    ghost var st := Starts(l);
    StartsFromSound(l, 0);
    var b := buf[..];
    var av := argv[..argc];
    args := seq(argc, i requires 0 <= i < argc && av[i].At? && av[i].pos <= |b| => CString(b, av[i].pos));
    forall i | 0 <= i < argc
      ensures args[i] == Parse(l).words[i]
    {
      BlankedWords(s0, st[i]);
    }
  }

  /** The lookup loop of `runcmd`: run the first command named `args[0]`, or return 0. */
  method Dispatch(args: seq<seq<char>>, run: (nat, seq<seq<char>>) -> int) returns (r: int)
    requires args != []
    ensures Lookup(args[0]).None? ==> r == 0
    ensures Lookup(args[0]).Some? ==> r == run(Lookup(args[0]).value, args)
  {
    var i := 0;
    while i < |Commands|
      invariant 0 <= i <= |Commands|
      invariant Lookup(args[0]) == LookupFrom(args[0], i)
    {
      if args[0] == Commands[i].name {
        return run(i, args);
      }
      i := i + 1;
    }
    return 0;
  }

  /** `runcmd` on a NUL-terminated command buffer: it splits the line in place and dispatches. */
  method RunCmd(buf: array<char>, run: (nat, seq<seq<char>>) -> int) returns (r: int)
    requires 0 < buf.Length && buf[buf.Length - 1] == '\0'
    modifies buf
    ensures r == RunLine(Line(old(buf[..])), run)
  {
    ghost var s0 := buf[..];
    var argv := new Ptr[MAXARGS](_ => Null);
    var argc, tooMany := Tokenize(buf, argv);
    if tooMany {
      return 0;
    }
    if argc == 0 {
      return 0;
    }
    var args := Arguments(buf, argv, argc, s0);
    r := Dispatch(args, run);
  }

  /** `runcmd` on a line that `readline` hands back, in a buffer of its own with the terminating NUL. */
  method RunLineOf(line: seq<char>, run: (nat, seq<seq<char>>) -> int) returns (r: int)
    requires NoNul(line)
    ensures r == RunLine(line, run)
  {
    var buf := new char[|line| + 1](k requires 0 <= k <= |line| => if k < |line| then line[k] else '\0');
    assert buf[..] == line + ['\0'];
    LineOfTerminated(line, 0);
    r := RunCmd(buf, run);
  }

  /** A C string read by `readline`: no NUL inside. */
  predicate NoNul(line: seq<char>) {
    forall k :: 0 <= k < |line| ==> line[k] != '\0'
  }

  /**
   * The monitor loop over the lines that `readline` hands back (`None` for a NULL line): it runs
   * each line and stops at the first one whose command returns a negative value.
   */
  method Monitor(lines: seq<Option<seq<char>>>, run: (nat, seq<seq<char>>) -> int) returns (exit: Option<nat>)
    requires forall j :: 0 <= j < |lines| && lines[j].Some? ==> NoNul(lines[j].value)
    ensures exit.Some? ==> exit.value < |lines| && lines[exit.value].Some? && RunLine(lines[exit.value].value, run) < 0
    ensures forall j :: 0 <= j < |lines| && (exit.None? || j < exit.value) && lines[j].Some? ==> RunLine(lines[j].value, run) >= 0
  {
    var j := 0;
    while j < |lines|
      invariant 0 <= j <= |lines|
      invariant forall j' :: 0 <= j' < j && lines[j'].Some? ==> RunLine(lines[j'].value, run) >= 0
    {
      if lines[j].Some? {
        var r := RunLineOf(lines[j].value, run);
        if r < 0 {
          return Some(j);
        }
      }
      j := j + 1;
    }
    return None;
  }

  // ---------------------------------------------------------------------------------------------
  // Address arguments of `showmappings` and `setpermbits`

  /** The highest virtual address either command accepts. */
  const VA_LIMIT: nat := 0xf7ff_ffff

  /**
   * An address argument: the `long` that `strtol` parsed, cast to `uint32_t` and rounded down to
   * its page.
   */
  function PageArgument(v: int): nat {
    Mmu.RoundDown(ToUint32(v))
  }

  /** The argument is the page holding the address, and it is refused exactly from 0xf8000000 on. */
  lemma PageArgumentRange(v: int)
    ensures PageArgument(v) % Mmu.PGSIZE == 0
    ensures PageArgument(v) <= ToUint32(v) < PageArgument(v) + Mmu.PGSIZE
    ensures PageArgument(v) > VA_LIMIT ==> ToUint32(v) >= 0xf800_0000
    ensures ToUint32(v) >= 0xf800_0000 ==> PageArgument(v) > VA_LIMIT
  {
  }

  // ---------------------------------------------------------------------------------------------
  // setpermbits

  /** The first character of an argument (the NUL terminator for an empty one). */
  function Sign(w: seq<char>): char {
    if w == [] then '\0' else w[0]
  }

  /** `str2pageperm` of what follows the sign. */
  function PermBits(w: seq<char>, str2pageperm: seq<char> -> bv32): bv32 {
    if w == [] then 0 else str2pageperm(w[1..])
  }

  /** The page-table entry that `setpermbits` writes back over `pte`. */
  function NewPte(pte: bv32, sign: char, bits: bv32): bv32 {
    if sign == '+' then pte | bits
    else if sign == '-' then pte & !bits
    else pte
  }

  /** `+` sets the given bits and keeps every other bit of the entry. */
  lemma PlusSetsBits(pte: bv32, bits: bv32)
    ensures NewPte(pte, '+', bits) & bits == bits
    ensures NewPte(pte, '+', bits) & !bits == pte & !bits
  {
  }

  /** `-` clears the given bits and keeps every other bit of the entry. */
  lemma MinusClearsBits(pte: bv32, bits: bv32)
    ensures NewPte(pte, '-', bits) & bits == 0
    ensures NewPte(pte, '-', bits) & !bits == pte & !bits
  {
  }

  /** Any other first character leaves the entry as it was. */
  lemma OtherSignKeepsEntry(pte: bv32, sign: char, bits: bv32)
    requires sign != '+' && sign != '-'
    ensures NewPte(pte, sign, bits) == pte
  {
  }

  /**
   * `mon_setpermbits`: with arguments `+perm va` or `-perm va`, set or clear `perm` in the entry
   * mapping the page of `va`. `strtol` is `strtol(_, NULL, 0)`; `lookup(va)` is the slot in `ptes`
   * of the entry mapping `va`, `None` when `page_lookup` finds no page.
   */
  method SetPermBits(args: seq<seq<char>>, strtol: seq<char> -> int, str2pageperm: seq<char> -> bv32,
                     lookup: nat -> Option<nat>, ptes: array<bv32>) returns (r: int)
    requires forall va :: lookup(va).Some? ==> lookup(va).value < ptes.Length
    modifies ptes
    ensures |args| != 3 ==> r == 1 && forall j :: 0 <= j < ptes.Length ==> ptes[j] == old(ptes[j])
    ensures |args| == 3 && (PageArgument(strtol(args[2])) > VA_LIMIT || lookup(PageArgument(strtol(args[2]))).None?) ==>
              r == 1 && forall j :: 0 <= j < ptes.Length ==> ptes[j] == old(ptes[j])
    ensures |args| == 3 && PageArgument(strtol(args[2])) <= VA_LIMIT && lookup(PageArgument(strtol(args[2]))).Some? ==>
              var i := lookup(PageArgument(strtol(args[2]))).value;
              r == 0 && ptes[i] == NewPte(old(ptes[i]), Sign(args[1]), PermBits(args[1], str2pageperm)) &&
              forall j :: 0 <= j < ptes.Length && j != i ==> ptes[j] == old(ptes[j])
  {
    if |args| != 3 {
      return 1;
    }
    var begin := PageArgument(strtol(args[2]));
    if begin > VA_LIMIT {
      return 1;
    }
    var slot := lookup(begin);
    if slot.None? {
      return 1;
    }
    UpdatePte(ptes, slot.value, args[1], str2pageperm);
    return 0;
  }

  /** The in-place update `*pptr |= ...` or `*pptr &= ~...` that the first argument selects. */
  method UpdatePte(ptes: array<bv32>, i: nat, w: seq<char>, str2pageperm: seq<char> -> bv32)
    requires i < ptes.Length
    modifies ptes
    ensures ptes[i] == NewPte(old(ptes[i]), Sign(w), PermBits(w, str2pageperm))
    ensures forall j :: 0 <= j < ptes.Length && j != i ==> ptes[j] == old(ptes[j])
  {
    if Sign(w) == '+' {
      ptes[i] := ptes[i] | str2pageperm(w[1..]);
    } else if Sign(w) == '-' {
      ptes[i] := ptes[i] & !str2pageperm(w[1..]);
    }
  }

  // ---------------------------------------------------------------------------------------------
  // showmappings

  /** The first and last page that `showmappings` lists. */
  datatype Range = Range(begin: nat, end: nat)

  /**
   * The argument checks of `mon_showmappings`: one or two addresses (`strtol` is
   * `strtol(_, NULL, 16)`), both rounded down to their page and both below 0xf8000000; `None` is
   * the return value 1.
   */
  function ShowMappingsRange(args: seq<seq<char>>, strtol: seq<char> -> int): (r: Option<Range>)
    ensures r.Some? ==> (|args| == 2 || |args| == 3) &&
                        r.value.begin % Mmu.PGSIZE == 0 && r.value.end % Mmu.PGSIZE == 0 &&
                        r.value.begin <= ToUint32(strtol(args[1])) < r.value.begin + Mmu.PGSIZE &&
                        r.value.end <= ToUint32(strtol(args[|args| - 1])) < r.value.end + Mmu.PGSIZE &&
                        ToUint32(strtol(args[1])) < 0xf800_0000 && ToUint32(strtol(args[|args| - 1])) < 0xf800_0000
    ensures r.None? ==> (|args| != 2 && |args| != 3) ||
                        ToUint32(strtol(args[1])) >= 0xf800_0000 || ToUint32(strtol(args[|args| - 1])) >= 0xf800_0000
  {
    if |args| != 3 && |args| != 2 then None
    else
      var begin := PageArgument(strtol(args[1]));
      var end := if |args| == 2 then begin else PageArgument(strtol(args[2]));
      PageArgumentRange(strtol(args[1]));
      PageArgumentRange(strtol(args[|args| - 1]));
      if begin > VA_LIMIT || end > VA_LIMIT then None
      else Some(Range(begin, end))
  }

  /** The pages from `begin` to `end`, both included, in increasing order. */
  function PagesBetween(begin: nat, end: nat): seq<nat>
    decreases end + Mmu.PGSIZE - begin
  {
    if begin > end then [] else [begin] + PagesBetween(begin + Mmu.PGSIZE, end)
  }

  /** Exactly the page addresses from `begin` to `end` are listed. */
  lemma {:induction false} PagesBetweenExact(begin: nat, end: nat, a: nat)
    requires begin % Mmu.PGSIZE == 0
    ensures a in PagesBetween(begin, end) ==> a % Mmu.PGSIZE == 0 && begin <= a <= end
    ensures a % Mmu.PGSIZE == 0 && begin <= a <= end ==> a in PagesBetween(begin, end)
    decreases end + Mmu.PGSIZE - begin
  {
    if begin <= end {
      PagesBetweenExact(begin + Mmu.PGSIZE, end, a);
    }
  }

  /**
   * The listing loop of `mon_showmappings` with unsigned addresses: the page-table lookups it makes,
   * one per page from `begin` to `end`. Below `VA_LIMIT` the step never wraps.
   */
  method Walk(begin: nat, end: nat) returns (rows: seq<nat>)
    requires begin % Mmu.PGSIZE == 0 && begin <= VA_LIMIT && end <= VA_LIMIT
    ensures rows == PagesBetween(begin, end)
  {
    var va := begin;
    rows := [];
    while va <= end
      invariant va % Mmu.PGSIZE == 0 && va < Mmu.WORD
      invariant rows + PagesBetween(va, end) == PagesBetween(begin, end)
      decreases end + Mmu.PGSIZE - va
    {
      rows := rows + [va];
      va := ToUint32(va + Mmu.PGSIZE);
    }
  }

  /**
   * `mon_showmappings`, corrected: the argument checks and return values as written, with the
   * unsigned walk `Walk` in place of the signed loop, so every page of the range is looked up and
   * printed. The loop as written is `WalkAsWritten`.
   */
  method ShowMappings(args: seq<seq<char>>, strtol: seq<char> -> int) returns (r: int, rows: seq<nat>)
    ensures ShowMappingsRange(args, strtol).None? ==> r == 1 && rows == []
    ensures ShowMappingsRange(args, strtol).Some? ==>
              r == 0 && rows == PagesBetween(ShowMappingsRange(args, strtol).value.begin, ShowMappingsRange(args, strtol).value.end)
  {
    if |args| != 3 && |args| != 2 {
      return 1, [];
    }
    var begin := PageArgument(strtol(args[1]));
    var end := if |args| == 2 then begin else PageArgument(strtol(args[2]));
    if begin > VA_LIMIT || end > VA_LIMIT {
      return 1, [];
    }
    rows := Walk(begin, end);
    r := 0;
  }

  /**
   * The listing loop as written, on `int begin, end`: the comparison is signed, so addresses from
   * 0x80000000 on count as negative. A `begin += PGSIZE` past the largest `int` is undefined in C;
   * the model takes the two's-complement wrap compilers usually emit, and only a walk that reaches
   * 0x7ffff000 depends on it. `fuel` bounds the number of rows looked at, since this loop need not
   * stop.
   */
  function RowsAsWritten(b: int, e: int, fuel: nat): seq<nat>
    requires -0x8000_0000 <= b < 0x8000_0000
    decreases fuel
  {
    if fuel == 0 || b > e then []
    else [ToUint32(b)] + RowsAsWritten(ToInt32(ToUint32(b + Mmu.PGSIZE)), e, fuel - 1)
  }

  /** The signed loop of `mon_showmappings`, run for at most `maxRows` rows. */
  method WalkAsWritten(begin: nat, end: nat, maxRows: nat) returns (rows: seq<nat>)
    requires begin < Mmu.WORD && end < Mmu.WORD
    ensures rows == RowsAsWritten(ToInt32(begin), ToInt32(end), maxRows)
  {
    var b := ToInt32(begin);
    var e := ToInt32(end);
    rows := [];
    var n := 0;
    while n < maxRows && b <= e
      invariant 0 <= n <= maxRows && -0x8000_0000 <= b < 0x8000_0000
      invariant rows + RowsAsWritten(b, e, maxRows - n) == RowsAsWritten(ToInt32(begin), ToInt32(end), maxRows)
    {
      rows := rows + [ToUint32(b)];
      b := ToInt32(ToUint32(b + Mmu.PGSIZE));
      n := n + 1;
    }
  }

  /** A range across 0x80000000 lists nothing as written, where both its pages should be listed. */
  lemma StraddlingRangeListsNothing(fuel: nat)
    ensures RowsAsWritten(ToInt32(0x7fff_f000), ToInt32(0x8000_0000), fuel) == []
    ensures PagesBetween(0x7fff_f000, 0x8000_0000) == [0x7fff_f000, 0x8000_0000]
  {
  }

  /**
   * As written, a signed walk that starts at `b` and ends below the last low page without wrapping
   * lists exactly `n` rows, where `n` is the number of pages from `b` to `e`.
   */
  lemma {:induction false} SignedWalkLength(b: int, e: int, n: nat, fuel: nat)
    requires -0x8000_0000 <= b && b + n * Mmu.PGSIZE == e + Mmu.PGSIZE && e + Mmu.PGSIZE < 0x8000_0000
    requires n <= fuel
    ensures |RowsAsWritten(b, e, fuel)| == n
    decreases n
  {
    if n > 0 {
      var next := ToInt32(ToUint32(b + Mmu.PGSIZE));
      if b + Mmu.PGSIZE < 0 {
        assert ToUint32(b + Mmu.PGSIZE) == b + Mmu.PGSIZE + 0x1_0000_0000;
      }
      assert next == b + Mmu.PGSIZE;
      SignedWalkLength(next, e, n - 1, fuel - 1);
    }
  }

  /**
   * As written, the decreasing range from 0xf0000000 to 0x1000 lists 0x10002 pages: every page
   * from 0xf0000000 up to 0xfffff000, then 0 and 0x1000. Nothing should be listed.
   */
  lemma DecreasingRangeListsPages()
    ensures RowsAsWritten(ToInt32(0xf000_0000), ToInt32(0x1000), 1) == [0xf000_0000]
    ensures |RowsAsWritten(ToInt32(0xf000_0000), ToInt32(0x1000), 0x10003)| == 0x10002
    ensures PagesBetween(0xf000_0000, 0x1000) == []
  {
    SignedWalkLength(-0x1000_0000, 0x1000, 0x10002, 0x10003);
  }

  /**
   * As written, a walk up to the page at 0x7ffff000 never ends: every page-aligned `int` is at
   * most 0x7ffff000, and the step past it overflows. Under the two's-complement wrap the model
   * takes for that undefined overflow, it goes on at the lowest `int`. The unsigned walk lists that
   * page once.
   */
  lemma {:induction false} WalkToLastLowPageNeverEnds(b: int, fuel: nat)
    requires -0x8000_0000 <= b < 0x8000_0000 && b % Mmu.PGSIZE == 0
    ensures |RowsAsWritten(b, 0x7fff_f000, fuel)| == fuel
    ensures PagesBetween(0x7fff_f000, 0x7fff_f000) == [0x7fff_f000]
    decreases fuel
  {
    if fuel > 0 {
      var next := ToInt32(ToUint32(b + Mmu.PGSIZE));
      if b + Mmu.PGSIZE < 0x8000_0000 {
        assert next == b + Mmu.PGSIZE;
      } else {
        assert next == -0x8000_0000;
      }
      WalkToLastLowPageNeverEnds(next, fuel - 1);
    }
  }
}
