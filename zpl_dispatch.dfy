/** The command line of the zenpack command (`parseOptions` and `run` in
    ZenPacks/zenoss/ZenPackLib/lib/libexec/ZPLCommand.py): which option
    receives the single positional argument, when the command exits before
    doing anything, and which one action it then runs. */
module ZplCommand {
  import opened Wrappers

  /** The store_true options, as optparse has parsed them. */
  datatype Flags = Flags(
    dump: bool, dumpEventClasses: bool, dumpProcessClasses: bool,
    create: bool, lint: bool, optimize: bool, diagram: bool, paths: bool)

  /** The options that take a file name. */
  predicate FileRole(f: Flags) { f.lint || f.diagram || f.optimize }

  /** The options that take a ZenPack name. */
  predicate ZenPackRole(f: Flags) { f.dump || f.create || f.dumpEventClasses || f.dumpProcessClasses }

  /** The option value a role receives from the argument: the argument
      when one of the role's flags is set, None otherwise. */
  function RoleValue(wanted: bool, arg: string): (v: Option<string>)
    ensures v.Some? <==> wanted
    ensures v.Some? ==> v.value == arg
  {
    if wanted then Some(arg) else None
  }

  const DefaultUsage := "%prog [options] [FILENAME|ZENPACK|DEVICE]"
  const FileUsage := "%prog [options] FILENAME"
  const ZenPackUsage := "%prog [options] ZENPACKNAME"
  const DeviceUsage := "%prog [options] DEVICE"

  /** How `parseOptions` ends: normally, by printing the help and exiting
      with status 1, or through `parser.error` (a usage error, status 2). */
  datatype ParseEnd = Parsed | HelpExit | UsageError(message: string)

  /** The parsed options of one command (`self.options` and the parser's
      usage line). */
  class CommandOptions {
    var flags: Flags
    var filename: Option<string>
    var zenpack: Option<string>
    var device: Option<string>
    var usage: string

    /** The state `buildOptions` leaves: no flag set, nothing assigned, the
        generic usage line. */
    constructor ()
      ensures flags == Flags(false, false, false, false, false, false, false, false)
      ensures filename == None && zenpack == None && device == None
      ensures usage == DefaultUsage
    {
      flags := Flags(false, false, false, false, false, false, false, false);
      filename, zenpack, device := None, None, None;
      usage := DefaultUsage;
    }

    /** `parseOptions`, given the flags optparse found, the positional
        arguments, and what `is_valid_file` answers for the argument
        (`fileValid`, and the warning it gives otherwise). */
    method ParseOptions(parsed: Flags, args: seq<string>, fileValid: bool, fileMessage: string) returns (end: ParseEnd)
      modifies this
      ensures flags == parsed
      // anything but exactly one argument prints the help and exits
      ensures end == HelpExit <==> |args| != 1
      ensures |args| != 1 ==> filename == None && zenpack == None && device == None && usage == old(usage)
      ensures |args| == 1 ==>
        && filename == RoleValue(FileRole(parsed), args[0])
        && (end.UsageError? <==> FileRole(parsed) && !fileValid)
      // an unreadable file stops parsing with its warning
      ensures end.UsageError? ==>
        end.message == fileMessage && zenpack == None && device == None && usage == FileUsage
      ensures end == Parsed ==>
        && zenpack == RoleValue(ZenPackRole(parsed), args[0])
        && device == RoleValue(parsed.paths, args[0])
        && usage == (if parsed.paths then DeviceUsage
                     else if ZenPackRole(parsed) then ZenPackUsage
                     else if FileRole(parsed) then FileUsage
                     else old(usage))
    {
      flags := parsed;
      filename, zenpack, device := None, None, None;
      if |args| != 1 {
        return HelpExit;
      }
      if FileRole(parsed) {
        usage := FileUsage;
        if |args| != 1 {
          // 'No filename given' cannot be reached
          assert false;
        }
        filename := Some(args[0]);
        if !fileValid {
          return UsageError(fileMessage);
        }
      }
      if ZenPackRole(parsed) {
        usage := ZenPackUsage;
        if |args| != 1 {
          // 'No ZenPack given' cannot be reached
          assert false;
        }
        zenpack := Some(args[0]);
      }
      if parsed.paths {
        usage := DeviceUsage;
        if |args| != 1 {
          // 'No device given' cannot be reached
          assert false;
        }
        device := Some(args[0]);
      }
      return Parsed;
    }
  }

  /** The actions `run` can start. */
  datatype Kind = Create | Dump | Lint | Optimize | Diagram | Paths | DumpEventClasses | DumpProcessClasses

  /** What `run` does: one action with its argument, nothing, or a usage
      error because the ZenPack to dump is not installed. */
  datatype Action = Perform(kind: Kind, arg: Option<string>) | Nothing | NotFound(message: string)

  /** Python's formatting of an optional string. */
  function Shown(o: Option<string>): string
  {
    match o
    case Some(s) => s
    case None => "None"
  }

  /** `run`: dumping first asks whether the ZenPack is installed
      (`zenpackFound` stands for `is_valid_zenpack`); then the first set
      flag of the if/elif chain decides the action. */
  function Run(f: Flags, filename: Option<string>, zenpack: Option<string>, zenpackFound: bool): (a: Action)
    ensures a.NotFound? <==> f.dump && !zenpackFound
    ensures a.NotFound? ==> a.message == Shown(zenpack) + " was not found"
  {
    if f.dump && !zenpackFound then NotFound(Shown(zenpack) + " was not found")
    else if f.create then Perform(Create, zenpack)
    else if f.dump then Perform(Dump, zenpack)
    else if f.lint then Perform(Lint, filename)
    else if f.optimize then Perform(Optimize, filename)
    else if f.diagram then Perform(Diagram, filename)
    else if f.paths then Perform(Paths, None)
    else if f.dumpEventClasses then Perform(DumpEventClasses, zenpack)
    else if f.dumpProcessClasses then Perform(DumpProcessClasses, zenpack)
    else Nothing
  }

  /** The actions from most to least urgent. */
  const Priority: seq<Kind> := [Create, Dump, Lint, Optimize, Diagram, Paths, DumpEventClasses, DumpProcessClasses]

  /** The flag that asks for an action. */
  function IsSet(f: Flags, k: Kind): bool
  {
    match k
    case Create => f.create
    case Dump => f.dump
    case Lint => f.lint
    case Optimize => f.optimize
    case Diagram => f.diagram
    case Paths => f.paths
    case DumpEventClasses => f.dumpEventClasses
    case DumpProcessClasses => f.dumpProcessClasses
  }

  /** The argument an action is given. */
  function ArgOf(k: Kind, filename: Option<string>, zenpack: Option<string>): Option<string>
  {
    match k
    case Lint | Optimize | Diagram => filename
    case Paths => None
    case _ => zenpack
  }

  /** The first action of `kinds` whose flag is set. */
  function FirstSet(f: Flags, kinds: seq<Kind>): (r: Option<nat>)
    ensures r.Some? ==> r.value < |kinds| && IsSet(f, kinds[r.value])
    ensures r.Some? ==> forall j :: 0 <= j < r.value ==> !IsSet(f, kinds[j])
    ensures r.None? ==> forall j :: 0 <= j < |kinds| ==> !IsSet(f, kinds[j])
  {
    if kinds == [] then None
    else if IsSet(f, kinds[0]) then Some(0)
    else match FirstSet(f, kinds[1..])
      case None => None
      case Some(i) => Some(i + 1)
  }

  /** Unless the ZenPack to dump is missing, `run` performs exactly the
      most urgent requested action, with its argument, and nothing at all
      when no action is requested. */
  lemma RunIsMostUrgent(f: Flags, filename: Option<string>, zenpack: Option<string>, zenpackFound: bool)
    requires !(f.dump && !zenpackFound)
    ensures match FirstSet(f, Priority)
      case None => Run(f, filename, zenpack, zenpackFound) == Nothing
      case Some(i) => Run(f, filename, zenpack, zenpackFound) == Perform(Priority[i], ArgOf(Priority[i], filename, zenpack))
  {
    var r := FirstSet(f, Priority);
    if r.Some? {
      var i := r.value;
      assert forall j :: 0 <= j < i ==> !IsSet(f, Priority[j]);
      assert i <= 0 || !IsSet(f, Priority[0]);
      assert i <= 1 || !IsSet(f, Priority[1]);
      assert i <= 2 || !IsSet(f, Priority[2]);
      assert i <= 3 || !IsSet(f, Priority[3]);
      assert i <= 4 || !IsSet(f, Priority[4]);
      assert i <= 5 || !IsSet(f, Priority[5]);
      assert i <= 6 || !IsSet(f, Priority[6]);
    } else {
      assert !IsSet(f, Priority[0]) && !IsSet(f, Priority[1]) && !IsSet(f, Priority[2]) && !IsSet(f, Priority[3]);
      assert !IsSet(f, Priority[4]) && !IsSet(f, Priority[5]) && !IsSet(f, Priority[6]) && !IsSet(f, Priority[7]);
    }
  }

  /** After a successful parse, every action `run` starts except listing
      paths receives the single command-line argument. */
  lemma ParsedActionGetsArgument(f: Flags, arg: string, zenpackFound: bool)
    ensures var a := Run(f, RoleValue(FileRole(f), arg), RoleValue(ZenPackRole(f), arg), zenpackFound);
      a.Perform? && a.kind != Paths ==> a.arg == Some(arg)
  {
  }
}
