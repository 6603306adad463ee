/**
 * The two endpoints of app.py and the three task handlers.  The sandbox
 * directory's contents are taken as a parameter (`Sandbox`), and what a
 * handler writes is returned as a list of `Effect`s instead of being
 * performed, so each request is a function of the task text and the sandbox.
 */
module Service {
  import opened Wrappers
  import opened Text
  import Dispatch
  import Wednesdays
  import Sorting
  import Contacts
  import opened Paths

  // `os.path.join(DATA_DIR, name)` for each file the handlers use
  const FormatPath := "/data/format.md"
  const DatesPath := "/data/dates.txt"
  const CountPath := "/data/dates-wednesdays.txt"
  const ContactsPath := "/data/contacts.json"
  const SortedPath := "/data/contacts-sorted.json"

  /** Every file the handlers use has a path starting with `/data/`. */
  lemma PathsInDataDir()
    ensures StartsWith(FormatPath, DataDir + "/") && StartsWith(DatesPath, DataDir + "/")
    ensures StartsWith(CountPath, DataDir + "/") && StartsWith(ContactsPath, DataDir + "/")
    ensures StartsWith(SortedPath, DataDir + "/")
  {
    assert DataDir + "/" == "/data/";
    assert FormatPath[..6] == "/data/" && DatesPath[..6] == "/data/";
    assert CountPath[..6] == "/data/" && ContactsPath[..6] == "/data/";
    assert SortedPath[..6] == "/data/";
  }

  // ---------------------------------------------------------------------------
  // Exceptions, outcomes and responses

  datatype Exception =
    | UnknownTask              // ValueError("Unknown task description")
    | BadDate(text: string)    // ValueError from strptime, for the stripped line `text`
    | BadJson                  // json.JSONDecodeError, a subclass of ValueError
    | NotFound(path: string)   // FileNotFoundError(f"{path} not found")
    | ToolFailed               // the prettier run: CalledProcessError, or npx missing

  /** The exceptions that `except ValueError` catches. */
  predicate IsValueError(e: Exception)
  {
    e.UnknownTask? || e.BadDate? || e.BadJson?
  }

  /** `str(e)` where app.py writes the message itself; the library's messages are not modelled. */
  function Message(e: Exception): Option<string>
  {
    match e
    case UnknownTask => Some("Unknown task description")
    case NotFound(path) => Some(path + " not found")
    case _ => None
  }

  /** What a handler leaves behind in the sandbox. */
  datatype Effect =
    | Formatted(path: string)                             // prettier --write path
    | WroteText(path: string, text: string)               // f.write(text)
    | WroteContacts(path: string, contacts: seq<Contacts.Contact>)  // json.dump(contacts, f, indent=2)

  function EffectPath(e: Effect): string
  {
    match e
    case Formatted(path) => path
    case WroteText(path, _) => path
    case WroteContacts(path, _) => path
  }

  /** How a call ended: it returned `result`, or raised `error`, having caused `effects`. */
  datatype Outcome =
    | Returned(result: string, effects: seq<Effect>)
    | Raised(error: Exception, effects: seq<Effect>)

  datatype Body =
    | Executed(result: string)   // {"message": "Task executed successfully", "result": result}
    | Failed(error: Exception)   // {"error": str(error)}
    | Refused(message: string)   // {"error": message}
    | Attachment(path: string)   // send_file(path)

  datatype Response = Response(status: int, body: Body)

  datatype Reply = Reply(response: Response, effects: seq<Effect>)

  // ---------------------------------------------------------------------------
  // The sandbox

  datatype ContactsFile = Undecodable | Decoded(contacts: seq<Contacts.Contact>)

  /**
   * What the handlers read: whether `format.md` exists and whether prettier
   * succeeds on it, the lines of `dates.txt` (`readlines`) and the decoded
   * `contacts.json`; `None` for a file that does not exist.
   */
  datatype Sandbox = Sandbox(
    formatExists: bool,
    prettierSucceeds: bool,
    dates: Option<seq<string>>,
    contacts: Option<ContactsFile>)

  // ---------------------------------------------------------------------------
  // The handlers

  /** `run_prettier`. */
  function RunPrettier(sb: Sandbox): (o: Outcome)
    ensures o.Returned? <==> sb.formatExists && sb.prettierSucceeds
    ensures o.Returned? ==> o == Returned("Formatted " + FormatPath, [Formatted(FormatPath)])
    ensures !sb.formatExists ==> o == Raised(NotFound(FormatPath), [])
  {
    if !sb.formatExists then Raised(NotFound(FormatPath), [])
    else if !sb.prettierSucceeds then Raised(ToolFailed, [])
    else Returned("Formatted " + FormatPath, [Formatted(FormatPath)])
  }

  /** `count_wednesdays`: the count is written only once every line has parsed. */
  function CountWednesdaysTask(sb: Sandbox): (o: Outcome)
    ensures sb.dates.None? ==> o == Raised(NotFound(DatesPath), [])
    ensures o.Returned? <==> sb.dates.Some? && Wednesdays.AllParse(sb.dates.value)
    ensures o.Returned? ==> o.effects == [WroteText(CountPath, Decimal(|Wednesdays.WednesdayLines(sb.dates.value)|))]
    ensures o.Raised? ==> o.effects == [] && IsValueError(o.error) == sb.dates.Some?
  {
    match sb.dates
    case None => Raised(NotFound(DatesPath), [])
    case Some(lines) =>
      match Wednesdays.CountWednesdays(lines)
      case Err(text) => Raised(BadDate(text), [])
      case Ok(n) => Returned("Wednesdays counted and written to " + CountPath, [WroteText(CountPath, Decimal(n))])
  }

  /** `sort_contacts`. */
  function SortContactsTask(sb: Sandbox): (o: Outcome)
    ensures sb.contacts.None? ==> o == Raised(NotFound(ContactsPath), [])
    ensures o.Returned? <==> sb.contacts.Some? && sb.contacts.value.Decoded?
    ensures o.Raised? ==> o.effects == [] && IsValueError(o.error) == sb.contacts.Some?
    ensures o.Returned? ==>
      && |o.effects| == 1 && o.effects[0].WroteContacts? && o.effects[0].path == SortedPath
      && Sorting.Sorted(o.effects[0].contacts, Contacts.Key)
      && multiset(o.effects[0].contacts) == multiset(sb.contacts.value.contacts)
      && Sorting.SameKeyOrder(o.effects[0].contacts, sb.contacts.value.contacts, Contacts.Key)
  {
    match sb.contacts
    case None => Raised(NotFound(ContactsPath), [])
    case Some(Undecodable) => Raised(BadJson, [])
    case Some(Decoded(cs)) =>
      Sorting.StableSortCorrect(cs, Contacts.Key);
      Returned("Contacts sorted and saved to " + SortedPath,
               [WroteContacts(SortedPath, Sorting.StableSort(cs, Contacts.Key))])
  }

  /** `process_task`: the classified task's handler, or `ValueError("Unknown task description")`. */
  function ProcessTask(task: string, sb: Sandbox): (o: Outcome)
    ensures Dispatch.Classify(task) == Dispatch.Unknown <==> o == Raised(UnknownTask, [])
  {
    match Dispatch.Classify(task)
    case Format => RunPrettier(sb)
    case CountWednesdays => CountWednesdaysTask(sb)
    case SortContacts => SortContactsTask(sb)
    case Unknown => Raised(UnknownTask, [])
  }

  // ---------------------------------------------------------------------------
  // The endpoints

  /** The status `run_task` answers with: 200 on return, 400 for a `ValueError`, 500 for any other exception. */
  function StatusOf(o: Outcome): (status: int)
    ensures status == 200 <==> o.Returned?
    ensures status == 400 <==> o.Raised? && IsValueError(o.error)
    ensures status == 500 <==> o.Raised? && !IsValueError(o.error)
  {
    if o.Returned? then 200 else if IsValueError(o.error) then 400 else 500
  }

  /** `POST /run?task=...`; a missing parameter reads as `""`. */
  function RunTask(task: string, sb: Sandbox): (r: Reply)
    ensures task == "" ==> r == Reply(Response(400, Refused("Task description is required")), [])
    ensures r.response.status in {200, 400, 500}
    ensures r.response.status != 200 ==> r.effects == []
  {
    if task == "" then
      Reply(Response(400, Refused("Task description is required")), [])
    else
      var o := ProcessTask(task, sb);
      match o
      case Returned(result, effects) => Reply(Response(StatusOf(o), Executed(result)), effects)
      case Raised(error, effects) => Reply(Response(StatusOf(o), Failed(error)), effects)
  }

  /** `GET /read?path=...`, given whether `path` exists (`present`); a missing parameter reads as `""`. */
  function ReadFile(path: string, present: bool): (r: Response)
    ensures r.status == 403 <==> !StartsWith(path, DataDir)
    ensures r.status == 404 <==> StartsWith(path, DataDir) && !present
    ensures r.status == 200 <==> StartsWith(path, DataDir) && present
    ensures r.status == 200 ==> r.body == Attachment(path)
  {
    if !StartsWith(path, DataDir) then Response(403, Refused("Access to this file is not allowed"))
    else if !present then Response(404, Refused("File not found"))
    else Response(200, Attachment(path))
  }

  /**
   * The read endpoint with the guard its comment asks for ("prevent
   * accessing files outside /data"): the path must be the data directory or
   * lie below it with no ".." segment.  Every other response is unchanged.
   */
  function ReadFileConfined(path: string, present: bool): (r: Response)
    ensures r.status == 403 <==> !Confined(path)
    ensures r.status == 404 <==> Confined(path) && !present
    ensures r.status == 200 <==> Confined(path) && present
    ensures r.status == 200 ==> r.body == Attachment(path)
  {
    if !Confined(path) then Response(403, Refused("Access to this file is not allowed"))
    else if !present then Response(404, Refused("File not found"))
    else Response(200, Attachment(path))
  }

  // ---------------------------------------------------------------------------
  // What the endpoints promise

  /** The file a task reads. */
  function InputPath(t: Dispatch.Task): string
  {
    match t
    case Format => FormatPath
    case CountWednesdays => DatesPath
    case SortContacts => ContactsPath
    case Unknown => ""
  }

  /** Whether the task's input file exists. */
  predicate InputExists(t: Dispatch.Task, sb: Sandbox)
  {
    match t
    case Format => sb.formatExists
    case CountWednesdays => sb.dates.Some?
    case SortContacts => sb.contacts.Some?
    case Unknown => false
  }

  /** When a task can run to its end: its input is there and usable. */
  ghost predicate TaskSucceeds(t: Dispatch.Task, sb: Sandbox)
  {
    match t
    case Format => sb.formatExists && sb.prettierSucceeds
    case CountWednesdays => sb.dates.Some? && Wednesdays.AllParse(sb.dates.value)
    case SortContacts => sb.contacts.Some? && sb.contacts.value.Decoded?
    case Unknown => false
  }

  /** A 200 exactly when the task text is non-empty, names a task, and that task can run. */
  lemma SuccessIff(task: string, sb: Sandbox)
    ensures RunTask(task, sb).response.status == 200 <==>
      task != "" && TaskSucceeds(Dispatch.Classify(task), sb)
  {
  }

  /**
   * A 500 exactly when a named task's input file is missing or the formatter
   * fails; every other failure is a 400.
   */
  lemma ServerErrorIff(task: string, sb: Sandbox)
    ensures RunTask(task, sb).response.status == 500 <==>
      task != "" && Dispatch.Classify(task) != Dispatch.Unknown &&
      (!InputExists(Dispatch.Classify(task), sb) ||
       (Dispatch.Classify(task) == Dispatch.Format && !sb.prettierSucceeds))
  {
  }

  /** An unrecognised task is a 400 carrying "Unknown task description", and nothing is written. */
  lemma UnknownTaskIsClientError(task: string, sb: Sandbox)
    requires task != "" && Dispatch.Classify(task) == Dispatch.Unknown
    ensures RunTask(task, sb) == Reply(Response(400, Failed(UnknownTask)), [])
    ensures Message(UnknownTask) == Some("Unknown task description")
  {
  }

  /** A missing input file is a 500, not a 404, naming the file; nothing is written. */
  lemma MissingInputIsServerError(task: string, sb: Sandbox)
    requires task != "" && Dispatch.Classify(task) != Dispatch.Unknown
    requires !InputExists(Dispatch.Classify(task), sb)
    ensures var path := InputPath(Dispatch.Classify(task));
      && RunTask(task, sb) == Reply(Response(500, Failed(NotFound(path))), [])
      && Message(NotFound(path)) == Some(path + " not found")
  {
  }

  /** When every line is a date, the count of Wednesday lines is written in decimal. */
  lemma CountWrittenWhenAllParse(task: string, sb: Sandbox, lines: seq<string>)
    requires task != "" && Dispatch.Classify(task) == Dispatch.CountWednesdays
    requires sb.dates == Some(lines) && Wednesdays.AllParse(lines)
    ensures RunTask(task, sb) == Reply(
      Response(200, Executed("Wednesdays counted and written to " + CountPath)),
      [WroteText(CountPath, Decimal(|Wednesdays.WednesdayLines(lines)|))])
  {
  }

  /** A line that is not a date, a blank line included, is a 400 naming that line, and nothing is written. */
  lemma NoCountWhenALineFails(task: string, sb: Sandbox, lines: seq<string>)
    requires task != "" && Dispatch.Classify(task) == Dispatch.CountWednesdays
    requires sb.dates == Some(lines) && !Wednesdays.AllParse(lines)
    ensures RunTask(task, sb).response.status == 400 && RunTask(task, sb).effects == []
    ensures exists i ::
      && Wednesdays.FirstFailure(lines, i)
      && RunTask(task, sb).response.body == Failed(BadDate(Strip(lines[i])))
  {
  }

  /** Decoded contacts are written sorted by key, as a stable permutation of the input. */
  lemma ContactsWrittenSorted(task: string, sb: Sandbox, cs: seq<Contacts.Contact>)
    requires task != "" && Dispatch.Classify(task) == Dispatch.SortContacts
    requires sb.contacts == Some(Decoded(cs))
    ensures var r := RunTask(task, sb);
      && r.response == Response(200, Executed("Contacts sorted and saved to " + SortedPath))
      && |r.effects| == 1 && r.effects[0].WroteContacts? && r.effects[0].path == SortedPath
      && Sorting.Sorted(r.effects[0].contacts, Contacts.Key)
      && multiset(r.effects[0].contacts) == multiset(cs)
      && Sorting.SameKeyOrder(r.effects[0].contacts, cs, Contacts.Key)
  {
    Sorting.StableSortCorrect(cs, Contacts.Key);
  }

  /** A contacts file that is not JSON is a 400 (`JSONDecodeError` is a `ValueError`), and nothing is written. */
  lemma UndecodableContactsIsClientError(task: string, sb: Sandbox)
    requires task != "" && Dispatch.Classify(task) == Dispatch.SortContacts
    requires sb.contacts == Some(Undecodable)
    ensures RunTask(task, sb) == Reply(Response(400, Failed(BadJson)), [])
  {
  }

  /** A successful prettier run is a 200 carrying the handler's message, and `format.md` is formatted. */
  lemma FormattedWhenPrettierSucceeds(task: string, sb: Sandbox)
    requires task != "" && Dispatch.Classify(task) == Dispatch.Format
    requires sb.formatExists && sb.prettierSucceeds
    ensures RunTask(task, sb) == Reply(Response(200, Executed("Formatted " + FormatPath)), [Formatted(FormatPath)])
  {
  }

  /** A formatter failure is a 500, and nothing is recorded as formatted. */
  lemma FormatterFailureIsServerError(task: string, sb: Sandbox)
    requires task != "" && Dispatch.Classify(task) == Dispatch.Format
    requires sb.formatExists && !sb.prettierSucceeds
    ensures RunTask(task, sb) == Reply(Response(500, Failed(ToolFailed)), [])
  {
  }

  /** Every file a task touches lies inside the data directory. */
  lemma EffectsStayInDataDir(task: string, sb: Sandbox)
    ensures forall e :: e in RunTask(task, sb).effects ==> StartsWith(EffectPath(e), DataDir + "/")
  {
    PathsInDataDir();
  }

  /** `count wednesdays` over a Monday and three Wednesdays writes "3". */
  lemma ExampleCountReply(sb: Sandbox)
    requires sb.dates == Some(["2024-01-01\n", "2024-01-03\n", "2024-01-10\n", "2024-01-17\n"])
    ensures RunTask("Count Wednesdays", sb).response.status == 200
    ensures RunTask("Count Wednesdays", sb).effects == [WroteText(CountPath, "3")]
  {
    Dispatch.ExampleCount();
    Wednesdays.ExampleCount(sb.dates.value);
  }

  /** The read guard is a plain prefix test on the path as given. */
  lemma ReadGuardIsPrefixTest()
    ensures ReadFile("/data/dates.txt", true) == Response(200, Attachment("/data/dates.txt"))
    ensures ReadFile("/data/dates.txt", false) == Response(404, Refused("File not found"))
    ensures ReadFile("/database/secret", true).status == 200
    ensures ReadFile("/data/../etc/passwd", true).status == 200
    ensures ReadFile("/dat", true) == Response(403, Refused("Access to this file is not allowed"))
    ensures ReadFile("data/dates.txt", true).status == 403
    ensures ReadFile("", true).status == 403
  {
    assert "/data/dates.txt"[..5] == DataDir;
    assert "/database/secret"[..5] == DataDir;
    assert "/data/../etc/passwd"[..5] == DataDir;
    assert "data/dates.txt"[0] != DataDir[0];
  }

  /** The prefix guard serves `/data/../<name>`, an entry of the root directory. */
  lemma PrefixGuardAdmitsEscapes(name: string)
    requires PlainName(name) && name != "data"
    ensures ReadFile("/data/../" + name, true).status == 200
    ensures Resolve("/data/../" + name) == [name] && !LeadsIntoDataDir("/data/../" + name)
  {
    assert ("/data/../" + name)[..5] == DataDir;
    ResolveUpAndOut(name);
  }

  /** The prefix guard serves `/data<suffix>`, a sibling of the data directory. */
  lemma PrefixGuardAdmitsSiblings(suffix: string)
    requires '/' !in suffix && suffix != ""
    ensures ReadFile(DataDir + suffix, true).status == 200
    ensures !LeadsIntoDataDir(DataDir + suffix)
  {
    assert (DataDir + suffix)[..5] == DataDir;
    ResolveSibling(suffix);
    assert |DataDir[1..] + suffix| > 4;
  }

  /** With the confined guard, a file is served only from inside the data directory. */
  lemma ConfinedReadStaysInDataDir(path: string, present: bool)
    ensures ReadFileConfined(path, present).status == 200 ==> LeadsIntoDataDir(path)
  {
    if Confined(path) {
      ConfinedLeadsIntoDataDir(path);
    }
  }

  /** The confined guard refuses both kinds of escape. */
  lemma ConfinedGuardRefusesEscapes(name: string, suffix: string, present: bool)
    requires PlainName(name) && '/' !in suffix && suffix != ""
    ensures ReadFileConfined("/data/../" + name, present).status == 403
    ensures ReadFileConfined(DataDir + suffix, present).status == 403
  {
    SplitUpAndOut(name);
    assert DataDir + "/" == "/data/";
    assert (DataDir + suffix)[5] == suffix[0] != '/';
    assert DataDir + suffix != DataDir;
  }

  /** The confined guard answers every direct entry of the data directory as the prefix guard does. */
  lemma ConfinedGuardKeepsEntries(name: string, present: bool)
    requires PlainName(name)
    ensures ReadFileConfined("/data/" + name, present) == ReadFile("/data/" + name, present)
  {
    SplitBelowDataDir(name);
    SplitLast(name);
    assert DataDir + "/" == "/data/";
    assert ("/data/" + name)[..5] == DataDir;
  }
}
