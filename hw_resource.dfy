/**
 * The pool of hardware modules (silk/hw/hw_resource.py and its copy
 * src/hw/hw_resource.py, which behaves the same).
 *
 * The pool reads the configuration file into its parser, builds one module
 * per section it does not know yet, and hands out modules by model: the
 * first unclaimed module of that model in list order is claimed and
 * returned. Reading the file is done by `configparser`; here its outcome
 * (the parser's sections and options after the read, or nothing when the
 * file cannot be read) is a parameter.
 */
module HwResource {
  import opened PyCore
  import opened HwModule

  /** What the pool and its modules hold: the modules' state in list order, and the parser's content. */
  datatype Pool = Pool(slots: seq<Slot>, sections: seq<string>, options: Options)

  /** The parser's sections and options once `parser.read(filename)` has read the file. */
  datatype IniFile = IniFile(sections: seq<string>, options: Options)

  /** The state of each module of `ms`, in order. */
  function Slots(ms: seq<HwModule>): (r: seq<Slot>)
    reads ms
    ensures |r| == |ms|
  {
    if ms == [] then [] else Slots(ms[..|ms| - 1]) + [ms[|ms| - 1].View()]
  }

  /** Entry `i` is the state of module `i`. */
  lemma {:induction false} SlotAt(ms: seq<HwModule>, i: nat)
    requires i < |ms|
    ensures Slots(ms)[i] == ms[i].View()
    decreases |ms|
  {
    if i < |ms| - 1 {
      SlotAt(ms[..|ms| - 1], i);
    }
  }

  /** Appending a module appends its state. */
  lemma SlotsSnoc(ms: seq<HwModule>, m: HwModule)
    ensures Slots(ms + [m]) == Slots(ms) + [m.View()]
  {
    assert (ms + [m])[..|ms|] == ms;
  }

  // ------------------------------------------------------------ searches

  /** A module `get_hw_module(model)` may take: unclaimed, and of that model. */
  predicate FreeWith(s: Slot, options: Options, model: string)
  {
    !s.claimed && ModelOf(s.explicitModel, options, s.name) == model
  }

  /** `_find_hw_module_unclaimed_by_model(model)`: the first free module of the model, in list order. */
  function FirstFree(slots: seq<Slot>, options: Options, model: string): (r: Option<nat>)
    ensures r.Some? ==> r.value < |slots| && FreeWith(slots[r.value], options, model)
    ensures r.Some? ==> forall j :: 0 <= j < r.value ==> !FreeWith(slots[j], options, model)
    ensures r.None? <==> forall j :: 0 <= j < |slots| ==> !FreeWith(slots[j], options, model)
  {
    if slots == [] then None
    else if FreeWith(slots[0], options, model) then Some(0)
    else match FirstFree(slots[1..], options, model)
      case None => None
      case Some(i) => Some(i + 1)
  }

  /** `_find_hw_module_by_name(name)`: the last module of that name. */
  function LastNamed(slots: seq<Slot>, name: string): (r: Option<nat>)
    ensures r.Some? ==> r.value < |slots| && slots[r.value].name == name
    ensures r.Some? ==> forall j :: r.value < j < |slots| ==> slots[j].name != name
    ensures r.None? <==> forall j :: 0 <= j < |slots| ==> slots[j].name != name
  {
    if slots == [] then None
    else if slots[|slots| - 1].name == name then Some(|slots| - 1)
    else LastNamed(slots[..|slots| - 1], name)
  }

  /** The slots once module `i` is claimed. */
  function ClaimedAt(slots: seq<Slot>, i: nat): seq<Slot>
    requires i < |slots|
  {
    slots[i := slots[i].(claimed := true)]
  }

  /** The slots once module `i` is freed. */
  function FreedAt(slots: seq<Slot>, i: nat): seq<Slot>
    requires i < |slots|
  {
    slots[i := slots[i].(claimed := false)]
  }

  /**
   * The module `get_hw_module(model, sw_version)` takes from a loaded pool:
   * none when a software version is asked for, none when no module of the
   * model is free (both raise HardwareNotFound), else the first free one.
   */
  function Picked(p: Pool, model: string, swVersion: Option<string>): (r: Result<nat>)
    ensures r.Ok? <==> swVersion.None? && FirstFree(p.slots, p.options, model).Some?
    ensures r.Ok? ==> r.value == FirstFree(p.slots, p.options, model).value
    ensures r.Err? ==> r.error == HardwareNotFound
  {
    if swVersion.Some? then Err(HardwareNotFound)
    else match FirstFree(p.slots, p.options, model)
      case None => Err(HardwareNotFound)
      case Some(i) => Ok(i)
  }

  // ------------------------------------------------------------ loading

  /**
   * One section of `_update_hw_modules`: a known name is skipped; otherwise
   * the module is built from its section, and added when a port is found.
   * A RuntimeError (unsupported model, no device) skips the section; any
   * other exception leaves the loop.
   */
  function ScanStep(q: Pool, tree: Tree, usb: Usb, s: string): (r: (Pool, Option<Exc>))
    ensures r.0.sections == q.sections && r.0.options == q.options
  {
    if LastNamed(q.slots, s).Some? then (q, None)
    else match PortLookup(tree, usb, q.options, s, None)
      case Ok(port) => (q.(slots := q.slots + [Slot(s, None, false, port)]), None)
      case Err(e) => (q, if e == RuntimeError then None else Some(e))
  }

  /**
   * `_update_hw_modules` from section `k` of `sections` on, starting from
   * pool `q`: the pool at the end, and the exception that stopped the loop,
   * if any.
   */
  function ScanFrom(q: Pool, tree: Tree, usb: Usb, sections: seq<string>, k: nat): (r: (Pool, Option<Exc>))
    requires k <= |sections|
    ensures r.0.sections == q.sections && r.0.options == q.options
    decreases |sections| - k
  {
    if k == |sections| then (q, None)
    else
      var next := ScanStep(q, tree, usb, sections[k]);
      if next.1.Some? then next else ScanFrom(next.0, tree, usb, sections, k + 1)
  }

  /** `_update_hw_modules()`. */
  function Updated(p: Pool, tree: Tree, usb: Usb): (r: (Pool, Option<Exc>))
    ensures r.0.sections == p.sections && r.0.options == p.options
  {
    ScanFrom(p, tree, usb, p.sections, 0)
  }

  /**
   * `load_config()`: a missing file is first created empty when the pool
   * may create it (so the parser is left as it is); a file that cannot be
   * read raises RuntimeError; otherwise the modules are updated from the
   * parser's new content.
   */
  function Loaded(p: Pool, tree: Tree, usb: Usb, file: Option<IniFile>, create: bool): (Pool, Option<Exc>)
  {
    var f := if file.None? && create then Some(IniFile(p.sections, p.options)) else file;
    if f.None? then (p, Some(RuntimeError))
    else Updated(p.(sections := f.value.sections, options := f.value.options), tree, usb)
  }

  /**
   * `get_hw_module(model, sw_version)`: an empty pool is loaded first; then
   * the picked module is claimed. The pool afterwards, and the index of
   * the module returned or the exception raised.
   */
  function Got(p: Pool, tree: Tree, usb: Usb, file: Option<IniFile>, create: bool, model: string, swVersion: Option<string>)
    : (r: (Pool, Result<nat>))
    ensures r.1.Ok? ==> r.1.value < |r.0.slots|
  {
    var (q, e) := if p.slots == [] then Loaded(p, tree, usb, file, create) else (p, None);
    if e.Some? then (q, Err(e.value)) else Taken(q, model, swVersion)
  }

  /** The second half of `get_hw_module`: the picked module is claimed. */
  function Taken(q: Pool, model: string, swVersion: Option<string>): (r: (Pool, Result<nat>))
    ensures r.1.Ok? ==> r.1.value < |r.0.slots|
  {
    match Picked(q, model, swVersion)
      case Err(x) => (q, Err(x))
      case Ok(i) => (q.(slots := ClaimedAt(q.slots, i)), Ok(i))
  }

  /**
   * `add_hw_module(name, model, serial, number)`: a known section changes
   * nothing; otherwise the section is added, the module is built from the
   * arguments (writing its options) and appended. When building raises,
   * the section and whatever was written stay, and no module is added.
   */
  function Added(p: Pool, tree: Tree, usb: Usb, name: string, model: Option<string>,
                 serial: Option<string>, number: Option<string>): (r: (Pool, Result<()>))
  {
    if name in p.options then (p, Ok(()))
    else
      var b := Construct(tree, usb, name, p.options[name := map[]], model, serial, number, None);
      var q := p.(sections := p.sections + [name], options := b.options);
      match b.port
        case Err(e) => (q, Err(e))
        case Ok(port) => (q.(slots := q.slots + [Slot(name, model, false, port)]), Ok(()))
  }

  // ------------------------------------------------------------ the pool

  predicate SharedParser(ms: seq<HwModule>, parser: ConfigParser)
  {
    forall i :: 0 <= i < |ms| ==> ms[i].parser == parser
  }

  predicate DistinctModules(ms: seq<HwModule>)
  {
    forall i, j :: 0 <= i < j < |ms| ==> ms[i] != ms[j]
  }

  /** A module of the pool's parser that is not yet in the list keeps the list valid once appended. */
  lemma ValidSnoc(ms: seq<HwModule>, parser: ConfigParser, m: HwModule)
    requires SharedParser(ms, parser) && DistinctModules(ms)
    requires m.parser == parser && m !in ms
    ensures SharedParser(ms + [m], parser) && DistinctModules(ms + [m])
  {
  }

  /** `HwResource`: its modules, and the parser they share. */
  class HwResource {
    var modules: seq<HwModule>
    const parser: ConfigParser
    const filename: string
    const create: bool

    /** Every module reads the pool's parser, and no module is in the list twice. */
    ghost predicate Valid()
      reads this
    {
      SharedParser(modules, parser) && DistinctModules(modules)
    }

    function State(): Pool
      reads this, modules, parser
    {
      Pool(Slots(modules), parser.sections, parser.options)
    }

    /** `HwResource(filename, create)`: no modules, an empty parser, and the default file when none is named. */
    constructor(filename: Option<string>, create: bool, defaultPath: string)
      ensures Valid() && fresh(parser)
      ensures State() == Pool([], [], map[])
      ensures this.filename == (if TruthyStr(filename) then filename.value else defaultPath)
      ensures this.create == create
    {
      modules := [];
      parser := new ConfigParser();
      this.filename := if TruthyStr(filename) then filename.value else defaultPath;
      this.create := create;
    }

    /** `_find_hw_module_unclaimed_by_model(model)`: the loop of the source, proved to find `FirstFree`. */
    method FindUnclaimedByModel(model: string) returns (r: Option<HwModule>)
      requires Valid()
      ensures FirstFree(Slots(modules), parser.options, model).None? ==> r.None?
      ensures FirstFree(Slots(modules), parser.options, model).Some? ==>
        r == Some(modules[FirstFree(Slots(modules), parser.options, model).value])
    {
      for k := 0 to |modules|
        invariant forall j :: 0 <= j < k ==> !FreeWith(Slots(modules)[j], parser.options, model)
      {
        var m := modules[k];
        SlotAt(modules, k);
        if !m.claimed && m.Model() == model {
          return Some(m);
        }
      }
      return None;
    }

    /** `_find_hw_module_by_name(name)`: the loop keeps the last match, as `LastNamed` does. */
    method FindByName(name: string) returns (r: Option<HwModule>)
      ensures LastNamed(Slots(modules), name).None? ==> r.None?
      ensures LastNamed(Slots(modules), name).Some? ==> r == Some(modules[LastNamed(Slots(modules), name).value])
    {
      r := None;
      for k := 0 to |modules|
        invariant LastNamed(Slots(modules)[..k], name).None? ==> r.None?
        invariant LastNamed(Slots(modules)[..k], name).Some? ==> r == Some(modules[LastNamed(Slots(modules)[..k], name).value])
      {
        SlotAt(modules, k);
        assert Slots(modules)[..k + 1][..k] == Slots(modules)[..k];
        assert Slots(modules)[..k + 1][k] == modules[k].View();
        if modules[k].name == name {
          r := Some(modules[k]);
        }
      }
      assert Slots(modules)[..|modules|] == Slots(modules);
    }

    /**
     * `free_hw_module(module)`: a pool member is freed (RuntimeError when it
     * is not claimed); any other module is left untouched.
     */
    method FreeHwModule(m: HwModule) returns (r: Result<()>)
      requires Valid()
      modifies m
      ensures Valid() && modules == old(modules)
      ensures m !in modules ==> r == Ok(()) && m.claimed == old(m.claimed)
      ensures m in modules ==> (r.Ok? <==> old(m.claimed)) && (r.Err? ==> r.error == RuntimeError)
      ensures forall i :: 0 <= i < |modules| && modules[i] == m ==>
        Slots(modules) == (if old(m.claimed) then FreedAt(old(Slots(modules)), i) else old(Slots(modules)))
    {
      if m in modules {
        ghost var before := Slots(modules);
        forall j | 0 <= j < |modules| ensures before[j] == modules[j].View() {
          SlotAt(modules, j);
        }
        r := m.Free();
        forall j | 0 <= j < |modules| ensures Slots(modules)[j] == modules[j].View() {
          SlotAt(modules, j);
        }
      } else {
        r := Ok(());
      }
    }

    /** `_update_hw_modules()`: the loop over the parser's sections, proved to follow `Updated`. */
    method UpdateHwModules(tree: Tree, usb: Usb) returns (r: Result<()>)
      requires Valid()
      modifies this, parser
      ensures Valid()
      ensures State() == Updated(old(State()), tree, usb).0
      ensures r.Err? <==> Updated(old(State()), tree, usb).1.Some?
      ensures r.Err? ==> r.error == Updated(old(State()), tree, usb).1.value
    {
      ghost var p0 := State();
      var sections := parser.sections;
      for k := 0 to |sections|
        invariant Valid() && State().sections == sections && State().options == p0.options
        invariant ScanFrom(State(), tree, usb, sections, k) == Updated(p0, tree, usb)
      {
        var e := AddFromSection(sections[k], tree, usb);
        if e.Some? {
          return Err(e.value);
        }
      }
      return Ok(());
    }

    /**
     * The body of `_update_hw_modules` for section `s`: a module is built
     * from the section and appended unless one of that name is known; a
     * RuntimeError is caught, any other exception is returned.
     */
    method AddFromSection(s: string, tree: Tree, usb: Usb) returns (e: Option<Exc>)
      requires Valid()
      modifies this, parser
      ensures Valid()
      ensures (State(), e) == ScanStep(old(State()), tree, usb, s)
    {
      var found := FindByName(s);
      if found.Some? {
        return None;
      }
      e := BuildFromSection(s, tree, usb);
    }

    /** The module of section `s`, for a name the pool does not know yet. */
    method BuildFromSection(s: string, tree: Tree, usb: Usb) returns (e: Option<Exc>)
      requires Valid() && LastNamed(State().slots, s).None?
      modifies this, parser
      ensures Valid()
      ensures (State(), e) == ScanStep(old(State()), tree, usb, s)
    {
      ghost var before := State();
      NoArgumentsReadSection(tree, usb, s, parser.options, None);
      var built := NewHwModule(tree, usb, s, parser, None, None, None, None, None);
      assert State() == before;
      if built.Err? {
        return if built.error == RuntimeError then None else Some(built.error);
      }
      var m := built.value;
      assert PortLookup(tree, usb, before.options, s, None) == Ok(m.port);
      assert ScanStep(before, tree, usb, s).0 == before.(slots := before.slots + [m.View()]);
      AddModule(m);
      return None;
    }

    /** `_add_hw_module(module)`: a new module of the pool's parser joins the end of the list. */
    method AddModule(m: HwModule)
      requires Valid() && m.parser == parser && m !in modules
      modifies this
      ensures Valid() && modules == old(modules) + [m]
      ensures State() == old(State()).(slots := old(State()).slots + [m.View()])
    {
      ValidSnoc(modules, parser, m);
      SlotsSnoc(modules, m);
      modules := modules + [m];
    }

    /**
     * `load_config()`. `file` is what `parser.read` makes of the file: its
     * sections and options, or nothing when the file cannot be read. A
     * missing file the pool may create is created empty first, which the
     * read then leaves the parser as it was.
     */
    method LoadConfig(tree: Tree, usb: Usb, file: Option<IniFile>) returns (r: Result<()>)
      requires Valid()
      modifies this, parser
      ensures Valid()
      ensures State() == Loaded(old(State()), tree, usb, file, create).0
      ensures r.Err? <==> Loaded(old(State()), tree, usb, file, create).1.Some?
      ensures r.Err? ==> r.error == Loaded(old(State()), tree, usb, file, create).1.value
    {
      var read := if file.None? && create then Some(IniFile(parser.sections, parser.options)) else file;
      if read.None? {
        return Err(RuntimeError);
      }
      ghost var slots := Slots(modules);
      parser.sections := read.value.sections;
      parser.options := read.value.options;
      assert Slots(modules) == slots;
      r := UpdateHwModules(tree, usb);
    }

    /** `module.claim()` on free module `i` of the pool: entry `i` alone becomes claimed. */
    method ClaimAt(m: HwModule, ghost i: nat)
      requires Valid() && i < |modules| && modules[i] == m && !m.claimed
      modifies m
      ensures Valid() && modules == old(modules)
      ensures State() == old(State()).(slots := ClaimedAt(old(State()).slots, i))
    {
      ghost var before := Slots(modules);
      forall j | 0 <= j < |modules| ensures before[j] == modules[j].View() {
        SlotAt(modules, j);
      }
      var claimed := m.Claim();
      forall j | 0 <= j < |modules| ensures Slots(modules)[j] == modules[j].View() {
        SlotAt(modules, j);
      }
      assert Slots(modules) == ClaimedAt(before, i);
    }

    /** The rest of `get_hw_module` once the pool is loaded: the first free module of the model is claimed. */
    method Take(model: string, swVersion: Option<string>) returns (r: Result<HwModule>)
      requires Valid()
      modifies iset x: HwModule | x.parser == parser
      ensures Valid() && modules == old(modules)
      ensures State() == Taken(old(State()), model, swVersion).0
      ensures r.Ok? <==> Taken(old(State()), model, swVersion).1.Ok?
      ensures r.Err? ==> r.error == Taken(old(State()), model, swVersion).1.error
      ensures r.Ok? ==> r.value == modules[Taken(old(State()), model, swVersion).1.value]
    {
      ghost var q := State();
      var m: Option<HwModule> := None;
      if swVersion.None? {
        m := FindUnclaimedByModel(model);
      }
      if m.None? {
        return Err(HardwareNotFound);
      }
      ghost var i := FirstFree(q.slots, q.options, model).value;
      SlotAt(modules, i);
      ClaimAt(m.value, i);
      return Ok(m.value);
    }

    /**
     * `get_hw_module(model, sw_version)`: an empty pool is loaded first;
     * then the first free module of the model is claimed and returned, or
     * HardwareNotFound raised. The name only labels the exception.
     */
    method GetHwModule(model: string, swVersion: Option<string>, tree: Tree, usb: Usb, file: Option<IniFile>)
      returns (r: Result<HwModule>)
      requires Valid()
      modifies this, parser, iset x: HwModule | x.parser == parser
      ensures Valid()
      ensures State() == Got(old(State()), tree, usb, file, create, model, swVersion).0
      ensures r.Ok? <==> Got(old(State()), tree, usb, file, create, model, swVersion).1.Ok?
      ensures r.Err? ==> r.error == Got(old(State()), tree, usb, file, create, model, swVersion).1.error
      ensures r.Ok? ==> r.value == modules[Got(old(State()), tree, usb, file, create, model, swVersion).1.value]
    {
      if |modules| == 0 {
        var loaded := LoadConfig(tree, usb, file);
        if loaded.Err? {
          return Err(loaded.error);
        }
      }
      r := Take(model, swVersion);
    }

    /** `add_hw_module(module_name, model, interface_serial, interface_number)`. */
    method AddHwModule(name: string, model: Option<string>, serial: Option<string>, number: Option<string>,
                       tree: Tree, usb: Usb) returns (r: Result<()>)
      requires Valid()
      modifies this, parser
      ensures Valid()
      ensures State() == Added(old(State()), tree, usb, name, model, serial, number).0
      ensures r == Added(old(State()), tree, usb, name, model, serial, number).1
    {
      if name in parser.options {
        return Ok(());
      }
      parser.AddSection(name);
      ghost var before := State();
      var built := NewHwModule(tree, usb, name, parser, model, serial, number, None, None);
      assert Slots(modules) == before.slots;
      if built.Err? {
        return Err(built.error);
      }
      AddModule(built.value);
      return Ok(());
    }
  }

  /** The module-level `_global_instance`. */
  class Registry {
    var instance: Option<HwResource>

    constructor()
      ensures instance.None?
    {
      instance := None;
    }

    /**
     * `global_instance(filename)`: the first call builds the pool (which
     * never creates its file); later calls return that pool whatever file
     * they name.
     */
    method GlobalInstance(filename: Option<string>, defaultPath: string) returns (r: HwResource)
      modifies this
      ensures old(instance).Some? ==> r == old(instance).value && instance == old(instance)
      ensures old(instance).None? ==> fresh(r) && instance == Some(r)
      ensures old(instance).None? ==> r.Valid() && r.State() == Pool([], [], map[]) && !r.create
      ensures old(instance).None? ==> r.filename == (if TruthyStr(filename) then filename.value else defaultPath)
    {
      if instance.Some? {
        return instance.value;
      }
      r := new HwResource(filename, false, defaultPath);
      instance := Some(r);
    }
  }

  // ------------------------------------------------------------ the exception's text

  /** A piece of a `str.format` template: literal text, or the positional field `{index}`. */
  datatype Piece = Lit(text: string) | Field(index: nat)

  predicate OutOfRange(piece: Piece, args: seq<string>)
  {
    piece.Field? && piece.index >= |args|
  }

  /** One piece rendered: its text, the argument it names, or IndexError. */
  function Render(piece: Piece, args: seq<string>): (r: Result<string>)
    ensures r.Err? <==> OutOfRange(piece, args)
    ensures r.Err? ==> r.error == IndexError
    ensures r.Ok? && piece.Field? ==> r.value == args[piece.index]
  {
    match piece
      case Lit(t) => Ok(t)
      case Field(i) => if i < |args| then Ok(args[i]) else Err(IndexError)
  }

  /** `template.format(*args)`: a field past the arguments raises IndexError. */
  function Format(template: seq<Piece>, args: seq<string>): (r: Result<string>)
    ensures r.Err? <==> exists i :: 0 <= i < |template| && OutOfRange(template[i], args)
    ensures r.Err? ==> r.error == IndexError
  {
    if template == [] then Ok("")
    else
      var head := Render(template[0], args);
      if head.Err? then Err(IndexError)
      else
        var rest := Format(template[1..], args);
        if rest.Err? then
          assert exists i :: 0 <= i < |template| - 1 && OutOfRange(template[1..][i], args);
          Err(IndexError)
        else
          assert forall i :: 1 <= i < |template| ==> template[i] == template[1..][i - 1];
          Ok(head.value + rest.value)
  }

  /** `'HW Model {0} not found for {2}'`, as `HardwareNotFound.__str__` writes it. */
  const NotFoundTemplate: seq<Piece> := [Lit("HW Model "), Field(0), Lit(" not found for "), Field(2)]

  /** The template with the name's field, `{1}`. */
  const NotFoundTemplateFixed: seq<Piece> := [Lit("HW Model "), Field(0), Lit(" not found for "), Field(1)]

  /** `str(HardwareNotFound(model, name))` as written. */
  function NotFoundText(model: string, name: string): Result<string>
  {
    Format(NotFoundTemplate, [model, name])
  }

  /** The text of the exception as intended: the model and the name it was asked for. */
  function NotFoundMessage(model: string, name: string): Result<string>
  {
    Format(NotFoundTemplateFixed, [model, name])
  }

  // ------------------------------------------------------------ lemmas

  /** Rendering the exception raises IndexError, whatever the model and name: the third field has no argument. */
  lemma NotFoundTextRaises(model: string, name: string)
    ensures NotFoundText(model, name) == Err(IndexError)
  {
    assert OutOfRange(NotFoundTemplate[3], [model, name]);
  }

  /** With `{1}`, the text names the model and the module asked for. */
  lemma NotFoundMessageText(model: string, name: string)
    ensures NotFoundMessage(model, name) == Ok("HW Model " + model + " not found for " + name)
  {
    var args := [model, name];
    var t := NotFoundTemplateFixed;
    FormatOne(t[0], args);
    FormatOne(t[1], args);
    FormatOne(t[2], args);
    FormatOne(t[3], args);
    FormatAppend([t[2]], [t[3]], args);
    FormatAppend([t[1]], [t[2], t[3]], args);
    FormatAppend([t[0]], [t[1], t[2], t[3]], args);
    assert [t[0]] + [t[1], t[2], t[3]] == t;
    assert [t[1]] + [t[2], t[3]] == [t[1], t[2], t[3]];
    assert [t[2]] + [t[3]] == [t[2], t[3]];
    var m, f := "HW Model ", " not found for ";
    assert NotFoundMessage(model, name) == Ok(m + (model + (f + name)));
    assert m + (model + (f + name)) == m + model + f + name;
  }

  /** A one-piece template renders as that piece. */
  lemma FormatOne(piece: Piece, args: seq<string>)
    requires Render(piece, args).Ok?
    ensures Format([piece], args) == Render(piece, args)
  {
    assert [piece][1..] == [];
    assert Render(piece, args).value + "" == Render(piece, args).value;
  }

  /** Formatting a template made of two parts is formatting each part. */
  lemma {:induction false} FormatAppend(a: seq<Piece>, b: seq<Piece>, args: seq<string>)
    requires Format(a, args).Ok? && Format(b, args).Ok?
    ensures Format(a + b, args) == Ok(Format(a, args).value + Format(b, args).value)
    decreases |a|
  {
    if a == [] {
      assert a + b == b;
      assert "" + Format(b, args).value == Format(b, args).value;
    } else {
      assert (a + b)[0] == a[0] && (a + b)[1..] == a[1..] + b;
      var head := Render(a[0], args).value;
      assert Format(a, args).value == head + Format(a[1..], args).value;
      FormatAppend(a[1..], b, args);
      var x, y := Format(a[1..], args).value, Format(b, args).value;
      assert Format(a + b, args) == Ok(head + (x + y));
      assert head + (x + y) == (head + x) + y;
    }
  }



  /** Two calls of `get_hw_module(model)` in a row never hand out the same module. */
  lemma GotTwiceDiffers(p: Pool, tree: Tree, usb: Usb, file: Option<IniFile>, create: bool, model: string)
    requires Got(p, tree, usb, file, create, model, None).1.Ok?
    requires var q := Got(p, tree, usb, file, create, model, None).0;
      Got(q, tree, usb, file, create, model, None).1.Ok?
    ensures var q := Got(p, tree, usb, file, create, model, None).0;
      Got(q, tree, usb, file, create, model, None).1.value != Got(p, tree, usb, file, create, model, None).1.value
  {
    var q := Got(p, tree, usb, file, create, model, None).0;
    var i := Got(p, tree, usb, file, create, model, None).1.value;
    assert q.slots[i].claimed;
    assert Got(q, tree, usb, file, create, model, None) == Taken(q, model, None);
  }

  /** Freeing the module `get_hw_module` handed out restores the pool's slots. */
  lemma GotThenFreed(p: Pool, tree: Tree, usb: Usb, file: Option<IniFile>, create: bool, model: string,
                     swVersion: Option<string>)
    requires Got(p, tree, usb, file, create, model, swVersion).1.Ok?
    ensures var (q, i) := Got(p, tree, usb, file, create, model, swVersion);
      q.slots[i.value].claimed
    ensures var (q, i) := Got(p, tree, usb, file, create, model, swVersion);
      var loaded := if p.slots == [] then Loaded(p, tree, usb, file, create).0 else p;
      FreedAt(q.slots, i.value) == loaded.slots
  {
  }

  /** Asking for a software version always raises: the pool never matches one. */
  lemma SwVersionNotFound(p: Pool, tree: Tree, usb: Usb, file: Option<IniFile>, create: bool, model: string, v: string)
    ensures Got(p, tree, usb, file, create, model, Some(v)).1.Err?
    ensures p.slots != [] ==> Got(p, tree, usb, file, create, model, Some(v)) == (p, Err(HardwareNotFound))
  {
  }

  /** A name `add_hw_module` has added is a known section: adding it again changes nothing. */
  lemma AddedTwice(p: Pool, tree: Tree, usb: Usb, name: string, model: Option<string>,
                   serial: Option<string>, number: Option<string>)
    ensures var q := Added(p, tree, usb, name, model, serial, number).0;
      Added(q, tree, usb, name, model, serial, number) == (q, Ok(()))
  {
    if name !in p.options {
      var o := p.options[name := map[]];
      var b := Construct(tree, usb, name, o, model, serial, number, None);
      assert name in b.options;
    }
  }

  /** Names that never occur twice. */
  predicate DistinctNames(slots: seq<Slot>)
  {
    forall i, j :: 0 <= i < j < |slots| ==> slots[i].name != slots[j].name
  }

  /** A slot of name `name` is present. */
  predicate Known(slots: seq<Slot>, name: string)
  {
    LastNamed(slots, name).Some?
  }

  /** Section `name` needs no module: one is named after it, or its lookup raised RuntimeError. */
  predicate Covered(slots: seq<Slot>, tree: Tree, usb: Usb, options: Options, name: string)
  {
    Known(slots, name) || PortLookup(tree, usb, options, name, None) == Err(RuntimeError)
  }

  /** A name known to a list is known to every extension of it. */
  lemma KnownGrows(a: seq<Slot>, b: seq<Slot>, name: string)
    requires |a| <= |b| && b[..|a|] == a && Known(a, name)
    ensures Known(b, name)
  {
    var i := LastNamed(a, name).value;
    assert b[i] == a[i];
  }

  /**
   * One step of the scan keeps the modules and adds at most one: unclaimed,
   * without an explicit model, named after the section.
   */
  lemma ScanStepShape(q: Pool, tree: Tree, usb: Usb, s: string)
    ensures var n := ScanStep(q, tree, usb, s).0;
      |q.slots| <= |n.slots| <= |q.slots| + 1 && n.slots[..|q.slots|] == q.slots
    ensures var n := ScanStep(q, tree, usb, s).0;
      |n.slots| > |q.slots| ==>
        n.slots[|q.slots|].name == s && !n.slots[|q.slots|].claimed && n.slots[|q.slots|].explicitModel.None?
    ensures ScanStep(q, tree, usb, s).1.Some? ==> ScanStep(q, tree, usb, s).0 == q
  {
    var n := ScanStep(q, tree, usb, s).0;
    if |n.slots| > |q.slots| {
      assert n.slots[..|q.slots|] == q.slots;
    }
  }

  /** After a step without exception, the section is named, or its lookup raised RuntimeError. */
  lemma ScanStepCovers(q: Pool, tree: Tree, usb: Usb, s: string)
    requires ScanStep(q, tree, usb, s).1.None?
    ensures Covered(ScanStep(q, tree, usb, s).0.slots, tree, usb, q.options, s)
  {
    var n := ScanStep(q, tree, usb, s).0;
    ScanStepShape(q, tree, usb, s);
    if |n.slots| > |q.slots| {
      assert n.slots[|q.slots|].name == s;
    }
  }

  /** The scan only appends: the modules already there stay, in order. */
  lemma {:induction false} ScanPrefix(q: Pool, tree: Tree, usb: Usb, sections: seq<string>, k: nat)
    requires k <= |sections|
    ensures var r := ScanFrom(q, tree, usb, sections, k).0;
      |q.slots| <= |r.slots| && r.slots[..|q.slots|] == q.slots
    decreases |sections| - k
  {
    if k < |sections| {
      var next := ScanStep(q, tree, usb, sections[k]);
      ScanStepShape(q, tree, usb, sections[k]);
      if next.1.None? {
        ScanPrefix(next.0, tree, usb, sections, k + 1);
        var r := ScanFrom(next.0, tree, usb, sections, k + 1).0;
        assert r.slots[..|q.slots|] == r.slots[..|next.0.slots|][..|q.slots|];
      }
    }
  }

  /**
   * Every module the scan adds is unclaimed, has no explicit model, and is
   * named after one of the sections scanned.
   */
  lemma {:induction false} ScanNewSlots(q: Pool, tree: Tree, usb: Usb, sections: seq<string>, k: nat)
    requires k <= |sections|
    ensures var r := ScanFrom(q, tree, usb, sections, k).0;
      forall j :: |q.slots| <= j < |r.slots| ==>
        !r.slots[j].claimed && r.slots[j].explicitModel.None? && r.slots[j].name in sections[k..]
    decreases |sections| - k
  {
    if k < |sections| {
      var next := ScanStep(q, tree, usb, sections[k]);
      ScanStepShape(q, tree, usb, sections[k]);
      if next.1.None? {
        ScanNewSlots(next.0, tree, usb, sections, k + 1);
        ScanPrefix(next.0, tree, usb, sections, k + 1);
        var r := ScanFrom(next.0, tree, usb, sections, k + 1).0;
        forall j | |q.slots| <= j < |r.slots|
          ensures !r.slots[j].claimed && r.slots[j].explicitModel.None? && r.slots[j].name in sections[k..]
        {
          if j < |next.0.slots| {
            assert r.slots[j] == next.0.slots[j];
            assert sections[k..][0] == sections[k];
          } else {
            assert sections[k + 1..] == sections[k..][1..];
          }
        }
      }
    }
  }

  /** The scan never adds a name twice, nor one already present. */
  lemma {:induction false} ScanDistinct(q: Pool, tree: Tree, usb: Usb, sections: seq<string>, k: nat)
    requires k <= |sections| && DistinctNames(q.slots)
    ensures DistinctNames(ScanFrom(q, tree, usb, sections, k).0.slots)
    decreases |sections| - k
  {
    if k < |sections| {
      var next := ScanStep(q, tree, usb, sections[k]);
      if next.1.None? {
        assert DistinctNames(next.0.slots);
        ScanDistinct(next.0, tree, usb, sections, k + 1);
      }
    }
  }

  /**
   * A scan that ends without an exception leaves every section scanned
   * either named by a module or without a device (its lookup raised
   * RuntimeError).
   */
  lemma {:induction false} ScanCovers(q: Pool, tree: Tree, usb: Usb, sections: seq<string>, k: nat)
    requires k <= |sections| && ScanFrom(q, tree, usb, sections, k).1.None?
    ensures var r := ScanFrom(q, tree, usb, sections, k).0;
      forall j :: k <= j < |sections| ==> Covered(r.slots, tree, usb, q.options, sections[j])
    decreases |sections| - k
  {
    if k < |sections| {
      var next := ScanStep(q, tree, usb, sections[k]);
      assert ScanFrom(q, tree, usb, sections, k) == ScanFrom(next.0, tree, usb, sections, k + 1);
      ScanCovers(next.0, tree, usb, sections, k + 1);
      var r := ScanFrom(next.0, tree, usb, sections, k + 1).0;
      assert next.0.options == q.options;
      ScanStepCovers(q, tree, usb, sections[k]);
      if Known(next.0.slots, sections[k]) {
        ScanPrefix(next.0, tree, usb, sections, k + 1);
        KnownGrows(next.0.slots, r.slots, sections[k]);
      }
      forall j | k <= j < |sections| ensures Covered(r.slots, tree, usb, q.options, sections[j]) {
        if j == k {
          assert Covered(r.slots, tree, usb, q.options, sections[k]);
        }
      }
    }
  }

  /** A scan finds nothing to do when every section is named or has no device. */
  lemma {:induction false} ScanFixed(q: Pool, tree: Tree, usb: Usb, sections: seq<string>, k: nat)
    requires k <= |sections|
    requires forall j :: k <= j < |sections| ==> Covered(q.slots, tree, usb, q.options, sections[j])
    ensures ScanFrom(q, tree, usb, sections, k) == (q, None)
    decreases |sections| - k
  {
    if k < |sections| {
      assert ScanStep(q, tree, usb, sections[k]) == (q, None);
      ScanFixed(q, tree, usb, sections, k + 1);
    }
  }

  /** `_update_hw_modules` is idempotent: once it has run without an exception, running it again adds nothing. */
  lemma UpdateIdempotent(p: Pool, tree: Tree, usb: Usb)
    requires Updated(p, tree, usb).1.None?
    ensures Updated(Updated(p, tree, usb).0, tree, usb) == (Updated(p, tree, usb).0, None)
  {
    var r := Updated(p, tree, usb).0;
    ScanCovers(p, tree, usb, p.sections, 0);
    ScanFixed(r, tree, usb, p.sections, 0);
  }

  /** Loading the same file twice in a row is loading it once. */
  lemma LoadTwice(p: Pool, tree: Tree, usb: Usb, f: IniFile, create: bool)
    requires Loaded(p, tree, usb, Some(f), create).1.None?
    ensures var q := Loaded(p, tree, usb, Some(f), create).0;
      Loaded(q, tree, usb, Some(f), create) == (q, None)
  {
    var q := Loaded(p, tree, usb, Some(f), create).0;
    UpdateIdempotent(p.(sections := f.sections, options := f.options), tree, usb);
    assert q.(sections := f.sections, options := f.options) == q;
  }
}
