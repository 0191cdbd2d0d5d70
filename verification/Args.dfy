/** The desolate command line. */
module Args {
  import opened Text
  import opened Wrappers

  datatype Command =
    | Run | Stop | PortsOf | Purge | List | Dinds | Uncommitted | Populate | CreateWorktree | RemoveWorktree
    | Reclaim | Exec | Bundle | Pull | Review | SuedeReport | SuedeBuild

  /** The outer editor's theme settings: those read, of the right type. */
  datatype Setting = Name(name: string) | Switch(on: bool)
  type Appearance = map<string, Setting>

  datatype Move = Move(target: string, port: nat)

  /** What the words say, option by option. */
  datatype Options = Options(
    command: Command, config: Option<string>, worktree: Option<string>, rebuild: bool, noCache: bool, all: bool,
    branch: Option<string>, from: Option<string>, force: bool, move: Option<Move>, path: Option<string>, json: bool,
    appearance: Option<Appearance>, positional: seq<string>, exec: Option<seq<string>>, transfer: Option<string>,
    ref: Option<string>, subrepo: Option<string>, fetchOnly: bool)

  const UNSAID := Options(Run, None, None, false, false, false, None, None, false, None, None, false, None, [],
                          None, None, None, None, false)

  /** A parsed invocation; no project for a command that acts on all of them. */
  datatype Args = Args(project: Option<string>, options: Options)

  // -------------------------------------------------------------- what words may be --

  predicate IsHex(c: char) { '0' <= c <= '9' || 'a' <= c <= 'f' }

  /** `desolate-transfer-` and sixteen hex digits and `.bundle`. */
  predicate IsTransferName(s: string) {
    && |s| == 41 && StartsWith(s, "desolate-transfer-") && EndsWith(s, ".bundle")
    && forall i :: 18 <= i < 34 ==> IsHex(s[i])
  }

  predicate IsPortWord(s: string) {
    1 <= |s| <= 5 && s[0] != '0' && forall i :: 0 <= i < |s| ==> IsDigit(s[i])
  }

  predicate IsLabel(s: string) {
    s == "editor" || IsPortWord(s)
  }

  predicate IsRef(s: string) {
    && s != "" && IsAlnum(s[0]) && !Contains(s, "..")
    && forall c :: c in s ==> IsAlnum(c) || c in "._/-"
  }

  /** No segment of `s`, between slashes, is `..`. */
  predicate NoUpward(s: string) {
    forall i :: 0 <= i <= |s| && At(s, "..", i) ==>
      !((i == 0 || s[i - 1] == '/') && (i + 2 == |s| || s[i + 2] == '/'))
  }

  predicate RelativeWithin(s: string) {
    s != "" && s[0] != '/' && (forall c :: c in s ==> c != '\0' && c != '\n' && c != ',') && NoUpward(s)
  }

  function ToNumber(s: string): nat {
    if s == "" then 0
    else 10 * ToNumber(s[..|s| - 1]) + if IsDigit(s[|s| - 1]) then (s[|s| - 1] - '0') as nat else 0
  }

  function Digits(n: nat): string {
    if n < 10 then ['0' + n as char] else Digits(n / 10) + ['0' + (n % 10) as char]
  }

  // ------------------------------------------------------------------- one option --

  /** An option with its values, or a word that is no option. */
  datatype Group =
    | SetConfig(v: string) | SetWorktree(v: string) | Says(c: Command) | SetBranch(v: string) | SetFrom(v: string)
    | SetForce | WithTransfer(c: Command, v: string) | SetFetchOnly | SetSubrepo(v: string) | SetTransfer(v: string)
    | SetRef(v: string) | SetPath(v: string) | SetAll | SetJson | SetAppearance(v: string)
    | SetMove(l: string, p: string) | SetRebuild | SetNoCache | Word(v: string)

  /** The options there are. */
  datatype Known =
    | Config | Worktree | Saying(c: Command) | Branch | From | Force | Transferring(c: Command) | FetchOnly | Subrepo
    | Transfer | Ref | Within | All | Json | Theme | Moving | Rebuild | NoCache

  /** The option a word is, if it is one; looked up among those as long. */
  function OptionOf(word: string): Option<Known> {
    if !StartsWith(word, "--") then None
    else match |word|
      case 5 => if word == "--ref" then Some(Ref) else if word == "--all" then Some(All) else None
      case 6 =>
        if word == "--stop" then Some(Saying(Stop)) else if word == "--exec" then Some(Saying(Exec))
        else if word == "--list" then Some(Saying(List)) else if word == "--pull" then Some(Transferring(Pull))
        else if word == "--from" then Some(From) else if word == "--path" then Some(Within)
        else if word == "--json" then Some(Json) else if word == "--move" then Some(Moving) else None
      case 7 =>
        if word == "--ports" then Some(Saying(PortsOf)) else if word == "--purge" then Some(Saying(Purge))
        else if word == "--dinds" then Some(Saying(Dinds)) else if word == "--force" then Some(Force) else None
      case 8 =>
        if word == "--config" then Some(Config) else if word == "--branch" then Some(Branch)
        else if word == "--bundle" then Some(Transferring(Bundle))
        else if word == "--review" then Some(Saying(Review)) else None
      case 9 =>
        if word == "--reclaim" then Some(Saying(Reclaim)) else if word == "--rebuild" then Some(Rebuild) else None
      case 10 =>
        if word == "--worktree" then Some(Worktree) else if word == "--populate" then Some(Saying(Populate))
        else if word == "--transfer" then Some(Transfer) else if word == "--no-cache" then Some(NoCache) else None
      case 12 =>
        if word == "--fetch-only" then Some(FetchOnly) else if word == "--appearance" then Some(Theme) else None
      case 13 =>
        if word == "--uncommitted" then Some(Saying(Uncommitted))
        else if word == "--suede-build" then Some(Subrepo) else None
      case 14 => if word == "--suede-report" then Some(Saying(SuedeReport)) else None
      case 17 =>
        if word == "--create-worktree" then Some(Saying(CreateWorktree))
        else if word == "--remove-worktree" then Some(Saying(RemoveWorktree)) else None
      case _ => None
  }

  /** How many values a word takes after itself. */
  function Arity(option: Option<Known>): nat {
    match option
    case None => 0
    case Some(Moving) => 2
    case Some(Saying(_)) => 0
    case Some(Force) => 0
    case Some(FetchOnly) => 0
    case Some(All) => 0
    case Some(Json) => 0
    case Some(Rebuild) => 0
    case Some(NoCache) => 0
    case _ => 1
  }

  /** What a word says, given the words after it: a value that is not there is
   *  empty. */
  function GroupOf(option: Option<Known>, word: string, v: string, w: string): Group {
    match option
    case None => Word(word)
    case Some(Config) => SetConfig(v)
    case Some(Worktree) => SetWorktree(v)
    case Some(Saying(c)) => Says(c)
    case Some(Branch) => SetBranch(v)
    case Some(From) => SetFrom(v)
    case Some(Force) => SetForce
    case Some(Transferring(c)) => WithTransfer(c, v)
    case Some(FetchOnly) => SetFetchOnly
    case Some(Subrepo) => SetSubrepo(v)
    case Some(Transfer) => SetTransfer(v)
    case Some(Ref) => SetRef(v)
    case Some(Within) => SetPath(v)
    case Some(All) => SetAll
    case Some(Json) => SetJson
    case Some(Theme) => SetAppearance(v)
    case Some(Moving) => SetMove(v, w)
    case Some(Rebuild) => SetRebuild
    case Some(NoCache) => SetNoCache
  }

  /** What an option does to what was said before it; nothing when it is refused. */
  function Apply(g: Group, o: Options, decode: string -> Option<Appearance>): Option<Options> {
    match g
    case SetConfig(v) => Some(o.(config := Some(v)))
    case SetWorktree(v) => Some(o.(worktree := Some(v)))
    case Says(c) => Some(o.(command := c))
    case SetBranch(v) => Some(o.(branch := Some(v)))
    case SetFrom(v) => Some(o.(from := Some(v)))
    case SetForce => Some(o.(force := true))
    case WithTransfer(c, v) => if IsTransferName(v) then Some(o.(command := c, transfer := Some(v))) else None
    case SetFetchOnly => Some(o.(fetchOnly := true))
    case SetSubrepo(v) =>
      if RelativeWithin(v) && !StartsWith(v, "-") then Some(o.(command := SuedeBuild, subrepo := Some(v))) else None
    case SetTransfer(v) => if IsTransferName(v) then Some(o.(transfer := Some(v))) else None
    case SetRef(v) => if IsRef(v) then Some(o.(ref := Some(v))) else None
    case SetPath(v) => Some(o.(path := Some(v)))
    case SetAll => Some(o.(all := true))
    case SetJson => Some(o.(json := true))
    case SetAppearance(v) => if decode(v).Some? then Some(o.(appearance := decode(v))) else None
    case SetMove(l, p) => if IsLabel(l) && IsPortWord(p) then Some(o.(move := Some(Move(l, ToNumber(p))))) else None
    case SetRebuild => Some(o.(rebuild := true))
    case SetNoCache => Some(o.(noCache := true, rebuild := true))
    case Word(v) => if StartsWith(v, "--") then None else Some(o.(positional := o.positional + [v]))
  }

  function Shift(queue: seq<string>): string {
    if queue == [] then "" else queue[0]
  }

  function Rest<T>(queue: seq<T>): seq<T> {
    if queue == [] then [] else queue[1..]
  }

  /** What reading takes as given: which words are options, and how the JSON of
   *  `--appearance` is read. */
  datatype Reader = Reader(known: string -> Option<Known>, decode: string -> Option<Appearance>)

  function Desolate(decode: string -> Option<Appearance>): Reader {
    Reader(OptionOf, decode)
  }

  /** The words from `queue` on, read after `o`. */
  function Read(queue: seq<string>, o: Options, reader: Reader): Option<Options>
    decreases |queue|
  {
    if queue == [] then Some(o)
    else if queue[0] == "--" then Some(o.(exec := Some(queue[1..])))
    else
      var option := reader.known(queue[0]);
      var next := Apply(GroupOf(option, queue[0], Shift(queue[1..]), Shift(Rest(queue[1..]))), o, reader.decode);
      if next.None? then None
      else
        var rest := queue[1..];
        var after := match Arity(option) case 0 => rest case 1 => Rest(rest) case _ => Rest(Rest(rest));
        Read(after, next.value, reader)
  }

  // ------------------------------------------------------------------ the invocation --

  predicate NamesNoTarget(o: Options) {
    o.command.List? || o.command.Dinds? || o.all
  }

  /** A combination that means something. */
  predicate Coherent(o: Options) {
    && (o.all ==> o.command.Stop?)
    && (o.branch.Some? || o.from.Some? ==> o.command.CreateWorktree?)
    && (o.force ==> o.command.RemoveWorktree?)
    && (o.command.CreateWorktree? || o.command.RemoveWorktree? ==> o.worktree.Some?)
    && (o.move.Some? ==> o.command.PortsOf?)
    && (o.appearance.Some? ==> o.command.Run?)
    && (o.json ==> o.command.List? || o.command.PortsOf?)
    && (o.exec.Some? ==> o.command.Exec?)
    && (o.command.Exec? ==> o.exec.Some? && o.exec.value != [])
    && (o.fetchOnly ==> o.command.Pull?)
    && (o.ref.Some? ==> o.command.SuedeReport? || o.command.SuedeBuild?)
    && (o.command.SuedeBuild? ==> o.transfer.Some?)
    && (o.transfer.Some? ==> o.command.Bundle? || o.command.Pull? || o.command.SuedeBuild?)
    && (o.path.Some? ==> o.command.Reclaim? && RelativeWithin(o.path.value))
  }

  function TrimSlashes(s: string): string {
    if s != "" && s[|s| - 1] == '/' then TrimSlashes(s[..|s| - 1]) else s
  }

  /** A bare name, `owner/name`, or the absolute path of either. */
  function ProjectName(raw: string, workspaces: string): string {
    var name := TrimSlashes(raw);
    if StartsWith(name, workspaces + "/") then name[|workspaces| + 1..] else name
  }

  /** Named bare or by its path, and however many slashes follow. */
  lemma {:induction false} ProjectIsNamedAlike(name: string, workspaces: string, slashes: nat)
    requires name != "" && name[|name| - 1] != '/' && !StartsWith(name, workspaces + "/")
    ensures ProjectName(name + seq(slashes, _ => '/'), workspaces) == name
    ensures ProjectName(workspaces + "/" + name + seq(slashes, _ => '/'), workspaces) == name
  {
    var path := workspaces + "/" + name;
    SlashesAreTrimmed(name, slashes);
    SlashesAreTrimmed(path, slashes);
    assert workspaces + "/" == path[..|workspaces| + 1];
  }

  lemma {:induction false} SlashesAreTrimmed(s: string, n: nat)
    requires s != "" && s[|s| - 1] != '/'
    ensures TrimSlashes(s + seq(n, _ => '/')) == s
  {
    var all := s + seq(n, _ => '/');
    if n == 0 {
      assert all == s;
    } else {
      assert all[..|all| - 1] == s + seq(n - 1, _ => '/');
      SlashesAreTrimmed(s, n - 1);
    }
  }

  function Invocation(o: Options, workspaces: string): Option<Args> {
    if !Coherent(o) then None
    else if NamesNoTarget(o) then
      if o.positional == [] then Some(Args(None, o.(subrepo := None))) else None
    else if |o.positional| != 1 || o.positional[0] == "" then None
    else
      var appearance := if o.appearance.Some? && o.appearance.value == map[] then None else o.appearance;
      Some(Args(Some(ProjectName(o.positional[0], workspaces)), o.(positional := [], appearance := appearance)))
  }

  /** What is said is taken exactly if it is coherent and names one target, or none for
   *  a command that acts on all; and then it is taken as said. */
  lemma InvocationExactly(o: Options, workspaces: string)
    ensures var r, onAll := Invocation(o, workspaces), o.command == List || o.command == Dinds || o.all;
      && (r.Some? <==>
            Coherent(o) && if onAll then o.positional == [] else exists name :: name != "" && o.positional == [name])
      && (r.Some? && onAll ==>
            r.value.project == None && r.value.options.(subrepo := o.subrepo) == o && r.value.options.subrepo == None)
      && (r.Some? && !onAll ==>
            && r.value.project == Some(ProjectName(o.positional[0], workspaces)) && r.value.options.positional == []
            && r.value.options.(positional := o.positional, appearance := o.appearance) == o
            && r.value.options.appearance == if o.appearance == Some(map[]) then None else o.appearance)
  {
    if |o.positional| == 1 { assert o.positional == [o.positional[0]]; }
  }

  /** What a command line means; nothing when its usage is refused. */
  function Parsed(argv: seq<string>, workspaces: string, decode: string -> Option<Appearance>): Option<Args> {
    var o := Read(argv, UNSAID, Desolate(decode));
    if o.None? then None else Invocation(o.value, workspaces)
  }
}
