/** The per-project settings document (`conf/settings.json`): how it is
    read back with defaults filled in (`get_settings`) and how `settings(...)`
    overrides individual fields. The quota and cgroup writes that follow are
    not modelled. */
module Settings {
  import opened Wrappers

  /** A JSON value as `json.loads` hands it to the script. `Composite` stands
      for a list or an object, kept as its text. */
  datatype Value = Int(i: int) | Float(f: real) | Bool(b: bool) | Str(s: string) | Null | Composite(json: string)

  /** `DEFAULT_SETTINGS`: disk and scratch in MB, memory in GB, mintime in seconds. */
  const DEFAULTS: map<string, Value> := map[
    "disk" := Int(4000),
    "scratch" := Int(15000),
    "inode" := Int(200000),
    "memory" := Int(8),
    "cpu_shares" := Int(256),
    "cores" := Int(2),
    "login_shell" := Str("/bin/bash"),
    "mintime" := Int(60 * 60 * 3)
  ]

  /** What is on disk at the settings path: nothing, something that cannot
      be read or parsed as JSON, or a parsed JSON object. */
  datatype Stored = Missing | Unreadable | Document(fields: map<string, Value>)

  /** `get_settings()`: every default key is present; a readable document
      keeps all its own keys and values, including ones the script does not
      know; a missing or unreadable one gives exactly the defaults. */
  function Load(doc: Stored): (s: map<string, Value>)
    ensures DEFAULTS.Keys <= s.Keys
    ensures doc.Document? ==> s.Keys == DEFAULTS.Keys + doc.fields.Keys
    ensures doc.Document? ==> forall k :: k in doc.fields ==> s[k] == doc.fields[k]
    ensures forall k :: k in DEFAULTS && !(doc.Document? && k in doc.fields) ==> s[k] == DEFAULTS[k]
    ensures !doc.Document? ==> s == DEFAULTS
  {
    match doc
    case Document(fields) => DEFAULTS + fields
    case _ => DEFAULTS
  }

  /** Reading back a document that `settings()` wrote (which always holds
      every default key) gives that document unchanged. */
  lemma LoadComplete(m: map<string, Value>)
    requires DEFAULTS.Keys <= m.Keys
    ensures Load(Document(m)) == m
  {
    assert Load(Document(m)).Keys == m.Keys;
  }

  /** Loading is idempotent: storing what was loaded and loading again
      changes nothing. */
  lemma LoadIdempotent(doc: Stored)
    ensures Load(Document(Load(doc))) == Load(doc)
  {
    LoadComplete(Load(doc));
  }

  /** The keyword arguments of `settings(...)`; `None` is an argument not
      passed. argparse has already converted them to numbers. */
  datatype Request = Request(
    memory: Option<int>,
    cpuShares: Option<int>,
    cores: Option<real>,
    disk: Option<int>,
    inode: Option<int>,
    loginShell: Option<string>,
    scratch: Option<int>,
    mintime: Option<int>)

  const NO_CHANGE := Request(None, None, None, None, None, None, None, None)

  /** The value `settings(...)` assigns to `key`, if it assigns one: each
      numeric field when passed (`int(...)`, or `float(...)` for cores), and
      `login_shell` only when it was passed and that path exists. */
  function Arg(req: Request, shellExists: bool, key: string): Option<Value>
  {
    if key == "memory" then (if req.memory.Some? then Some(Int(req.memory.value)) else None)
    else if key == "cpu_shares" then (if req.cpuShares.Some? then Some(Int(req.cpuShares.value)) else None)
    else if key == "cores" then (if req.cores.Some? then Some(Float(req.cores.value)) else None)
    else if key == "disk" then (if req.disk.Some? then Some(Int(req.disk.value)) else None)
    else if key == "scratch" then (if req.scratch.Some? then Some(Int(req.scratch.value)) else None)
    else if key == "inode" then (if req.inode.Some? then Some(Int(req.inode.value)) else None)
    else if key == "mintime" then (if req.mintime.Some? then Some(Int(req.mintime.value)) else None)
    else if key == "login_shell" then (if req.loginShell.Some? && shellExists then Some(Str(req.loginShell.value)) else None)
    else None
  }

  /** The map part of `settings(...)`. Each passed field takes its new value
      and every other key, known or not, keeps the value it had. */
  function Apply(current: map<string, Value>, req: Request, shellExists: bool): (s: map<string, Value>)
    ensures forall k :: k in s <==> k in current || (k in DEFAULTS && Arg(req, shellExists, k).Some?)
    ensures forall k :: k in s && Arg(req, shellExists, k).Some? ==> s[k] == Arg(req, shellExists, k).value
    ensures forall k :: k in current && Arg(req, shellExists, k).None? ==> s[k] == current[k]
  {
    var passed := map k | k in DEFAULTS.Keys && Arg(req, shellExists, k).Some? :: Arg(req, shellExists, k).value;
    current + passed
  }

  /** A shell argument whose path does not exist leaves `login_shell` as it was. */
  lemma MissingShellIgnored(current: map<string, Value>, req: Request)
    requires "login_shell" in current
    ensures Apply(current, req, false)["login_shell"] == current["login_shell"]
  {
  }

  /** A passed shell whose path exists replaces `login_shell`. */
  lemma ExistingShellApplied(current: map<string, Value>, req: Request, shell: string)
    requires req.loginShell == Some(shell)
    ensures Apply(current, req, true)["login_shell"] == Str(shell)
  {
  }

  /** A passed number replaces its field even when the stored value was of
      another kind. */
  lemma PassedMintimeApplied(current: map<string, Value>, req: Request, shellExists: bool, m: int)
    requires req.mintime == Some(m)
    ensures Apply(current, req, shellExists)["mintime"] == Int(m)
  {
  }

  /** `settings(...)` writes the updated map back as the new document. */
  function Update(doc: Stored, req: Request, shellExists: bool): (d: Stored)
    ensures d.Document?
  {
    Document(Apply(Load(doc), req, shellExists))
  }

  /** What `settings(...)` writes is what the next `get_settings()` reads. */
  lemma LoadAfterUpdate(doc: Stored, req: Request, shellExists: bool)
    ensures Load(Update(doc, req, shellExists)) == Apply(Load(doc), req, shellExists)
  {
    LoadComplete(Apply(Load(doc), req, shellExists));
  }

  /** `settings()` with no arguments changes no setting, though it turns a
      missing or unreadable file into an explicit copy of the defaults. */
  lemma UpdateWithoutArguments(doc: Stored, shellExists: bool)
    ensures Load(Update(doc, NO_CHANGE, shellExists)) == Load(doc)
  {
    LoadAfterUpdate(doc, NO_CHANGE, shellExists);
    ApplyNothing(Load(doc), shellExists);
  }

  /** Applying a request that passes nothing leaves the map as it was. */
  lemma ApplyNothing(current: map<string, Value>, shellExists: bool)
    ensures Apply(current, NO_CHANGE, shellExists) == current
  {
    var s := Apply(current, NO_CHANGE, shellExists);
    forall k
      ensures Arg(NO_CHANGE, shellExists, k).None?
    {
    }
    assert s.Keys == current.Keys;
    assert forall k :: k in s ==> s[k] == current[k];
  }

  // ------------------------------------------- Python 2 ordering of values

  /** `v <= 0` in Python 2 for a JSON value: numbers (and booleans) compare by
      value, None sorts below every number, strings, lists and objects above. */
  predicate AtMostZero(v: Value) {
    match v
    case Int(i) => i <= 0
    case Float(f) => f <= 0.0
    case Bool(b) => !b
    case Null => true
    case Str(_) => false
    case Composite(_) => false
  }

  /** `x < v` in Python 2 for a float `x`, with the same ordering. */
  predicate Below(x: real, v: Value) {
    match v
    case Int(i) => x < i as real
    case Float(f) => x < f
    case Bool(b) => x < (if b then 1.0 else 0.0)
    case Null => false
    case Str(_) => true
    case Composite(_) => true
  }
}
