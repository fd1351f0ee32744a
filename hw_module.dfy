/**
 * One hardware module of the test bed (silk/hw/hw_module.py and its older
 * copy src/hw/hw_module.py).
 *
 * A module is a section of the hardware configuration file, kept in a
 * shared `ConfigParser`. It can be built from its section alone, or from
 * an explicit model, interface serial and interface number, which are then
 * written into the section. Either way the constructor looks its serial
 * port up among the attached USB devices unless a port is given. Pool
 * allocation guards a module with its `claimed` flag.
 *
 * The two trees differ in two places: src/ knows only the nRF52840 and
 * the Nordic sniffer (no Efr32), and always searches the USB devices with
 * the nRF52840 model, whatever the module's model is.
 */
module HwModule {
  import opened PyCore
  import opened PyInt
  import opened PyFloat

  // Option names of a configuration section.
  const HwModelOption := "HwModel"
  const InterfaceSerialOption := "InterfaceSerialNumber"
  const InterfaceNumberOption := "USBInterfaceNumber"
  const DutSerialOption := "DutSerial"

  // Supported board models.
  const Nrf52840 := "nRF52840_OpenThread_Device"
  const NordicSniffer := "NordicSniffer"
  const Efr32 := "Efr32"

  /** Which copy of the program: the current silk/ tree or the older src/ tree. */
  datatype Tree = Silk | Src

  /** `dev_devices`: the models `set_port` accepts. */
  function DevDevices(tree: Tree): (r: seq<string>)
    ensures Nrf52840 in r && NordicSniffer in r
    ensures Efr32 in r <==> tree == Silk
  {
    if tree == Silk then [Nrf52840, Efr32, NordicSniffer] else [Nrf52840, NordicSniffer]
  }

  /** Sections of a configuration and, per section, its options. */
  type Options = map<string, map<string, string>>

  /**
   * The attached USB devices, as `usbdevice.device_find_from_serial` sees
   * them: the device name found for a (model, serial, interface number).
   */
  type Usb = map<(string, string, int), string>

  /** The part of `configparser` the hardware pool uses: ordered sections and their options. */
  class ConfigParser {
    var sections: seq<string>
    var options: Options

    constructor()
      ensures sections == [] && options == map[]
    {
      sections := [];
      options := map[];
    }

    /** `parser.set(section, option, value)`: a missing section raises NoSectionError. */
    method Set(section: string, option: string, value: string) returns (r: Result<()>)
      modifies this
      ensures sections == old(sections)
      ensures r.Ok? <==> section in old(options)
      ensures r.Ok? ==> options == old(options)[section := old(options)[section][option := value]]
      ensures r.Err? ==> r == Err(NoSectionError) && options == old(options)
    {
      if section !in options {
        return Err(NoSectionError);
      }
      options := options[section := options[section][option := value]];
      return Ok(());
    }

    /** `parser.add_section(section)`, called only for a section the parser lacks. */
    method AddSection(section: string)
      requires section !in options
      modifies this
      ensures sections == old(sections) + [section]
      ensures options == old(options)[section := map[]]
    {
      sections := sections + [section];
      options := options[section := map[]];
    }
  }

  // ------------------------------------------------------------ option reads

  function HasOption(options: Options, section: string, option: string): bool
  {
    section in options && option in options[section]
  }

  /** `__get_option_str(option)`: the option's text, `''` when the section lacks it. */
  function OptionStr(options: Options, section: string, option: string): (r: string)
    ensures !HasOption(options, section, option) ==> r == ""
  {
    if HasOption(options, section, option) then options[section][option] else ""
  }

  /**
   * `int(__get_option_float(option))`: the option read as a float and cut
   * toward zero, 0 when the section lacks it; text that is not a number
   * raises ValueError, an infinity OverflowError.
   */
  function OptionNumber(options: Options, section: string, option: string): (r: Result<int>)
    ensures !HasOption(options, section, option) ==> r == Ok(0)
    ensures HasOption(options, section, option) ==> r == FloatToInt(options[section][option])
    ensures r.Err? ==> r.error == ValueError || r.error == OverflowError
  {
    if HasOption(options, section, option) then FloatToInt(options[section][option]) else Ok(0)
  }

  /** `model()`: the explicit model when one was given, else the `HwModel` option, else `''`. */
  function ModelOf(explicitModel: Option<string>, options: Options, name: string): (r: string)
    ensures explicitModel.Some? ==> r == explicitModel.value
    ensures explicitModel.None? && HasOption(options, name, HwModelOption) ==> r == options[name][HwModelOption]
    ensures explicitModel.None? && !HasOption(options, name, HwModelOption) ==> r == ""
  {
    if explicitModel.Some? then explicitModel.value else OptionStr(options, name, HwModelOption)
  }

  /**
   * `set_port()`: the device name found for the module's serial and
   * interface number. The number is read first (a ValueError leaves
   * at once); a model outside `dev_devices`, or no device found, raises
   * RuntimeError. The src/ tree searches with the nRF52840 model.
   */
  function PortLookup(tree: Tree, usb: Usb, options: Options, name: string, explicitModel: Option<string>): (r: Result<string>)
    ensures r.Ok? ==> ModelOf(explicitModel, options, name) in DevDevices(tree)
    ensures r.Ok? ==> OptionNumber(options, name, InterfaceNumberOption).Ok?
    ensures r.Err? ==> r.error == ValueError || r.error == OverflowError || r.error == RuntimeError
    ensures OptionNumber(options, name, InterfaceNumberOption).Ok? && ModelOf(explicitModel, options, name) !in DevDevices(tree) ==>
      r == Err(RuntimeError)
  {
    var number :- OptionNumber(options, name, InterfaceNumberOption);
    var model := ModelOf(explicitModel, options, name);
    if model !in DevDevices(tree) then Err(RuntimeError)
    else
      var key := (if tree == Silk then model else Nrf52840, OptionStr(options, name, InterfaceSerialOption), number);
      if key in usb then Ok(usb[key]) else Err(RuntimeError)
  }

  // ------------------------------------------------------------ construction

  /** What the constructor leaves in the parser, and the port it settles on or the exception it raises. */
  datatype Built = Built(options: Options, port: Result<string>)

  /** The options `__set_options` writes: model, serial, and the number printed back as text. */
  function WithModuleOptions(options: Options, name: string, model: string, serial: string, number: int): Options
    requires name in options
  {
    options[name := options[name][HwModelOption := model][InterfaceSerialOption := serial][InterfaceNumberOption := IntStr(number)]]
  }

  /**
   * `HwModule(name, parser, model, interface_serial, interface_number, port)`:
   * the three must all be truthy or all falsy; when all are given and no
   * port is, they are written to the section (whose number must read as an
   * integer, and whose section must exist); without a port, one is then
   * looked up.
   */
  function Construct(tree: Tree, usb: Usb, name: string, options: Options, model: Option<string>,
                     serial: Option<string>, number: Option<string>, port: Option<string>): (b: Built)
  {
    if TruthyStr(model) && TruthyStr(serial) && TruthyStr(number) then
      if port.Some? then Built(options, Ok(port.value))
      else match Written(options, name, model.value, serial.value, number.value)
        case Err(e) => Built(options, Err(e))
        case Ok(w) => Built(w, PortLookup(tree, usb, w, name, model))
    else if TruthyStr(model) || TruthyStr(serial) || TruthyStr(number) then Built(options, Err(ValueError))
    else if port.Some? then Built(options, Ok(port.value))
    else Built(options, PortLookup(tree, usb, options, name, model))
  }

  /**
   * `int(interface_number)` followed by `__set_options`: ValueError for a
   * number that is not an integer, NoSectionError for a missing section.
   */
  function Written(options: Options, name: string, model: string, serial: string, number: string): (r: Result<Options>)
    ensures r.Err? ==> r.error == (if ParseInt(number, 10).Err? then ValueError else NoSectionError)
    ensures r.Ok? ==> name in options && ParseInt(number, 10).Ok?
  {
    var n :- ParseInt(number, 10);
    if name !in options then Err(NoSectionError) else Ok(WithModuleOptions(options, name, model, serial, n))
  }

  /** The state of a module the pool looks at: its name, explicit model, claim flag and port. */
  datatype Slot = Slot(name: string, explicitModel: Option<string>, claimed: bool, port: string)

  /** `claim()` on a module whose flag is `claimed`: the new flag, or RuntimeError. */
  function ClaimStep(claimed: bool): (r: Result<bool>)
    ensures r.Ok? <==> !claimed
    ensures r.Ok? ==> r.value
    ensures r.Err? ==> r.error == RuntimeError
  {
    if claimed then Err(RuntimeError) else Ok(true)
  }

  /** `free()` on a module whose flag is `claimed`: the new flag, or RuntimeError. */
  function FreeStep(claimed: bool): (r: Result<bool>)
    ensures r.Ok? <==> claimed
    ensures r.Ok? ==> !r.value
    ensures r.Err? ==> r.error == RuntimeError
  {
    if !claimed then Err(RuntimeError) else Ok(false)
  }

  /** A hardware module: its name and model are fixed, its claim flag changes. */
  class HwModule {
    const name: string
    const parser: ConfigParser
    const explicitModel: Option<string>
    const dutSerial: Option<string>
    var claimed: bool
    var port: string

    /** The object `__init__` fills in, once its arguments have been checked. */
    constructor(name: string, parser: ConfigParser, explicitModel: Option<string>, port: string, dutSerial: Option<string>)
      ensures this.name == name && this.parser == parser && this.explicitModel == explicitModel
      ensures this.port == port && this.dutSerial == dutSerial && !claimed
    {
      this.name := name;
      this.parser := parser;
      this.explicitModel := explicitModel;
      this.port := port;
      this.dutSerial := dutSerial;
      claimed := false;
    }

    function View(): Slot
      reads this
    {
      Slot(name, explicitModel, claimed, port)
    }

    /** `model()`. */
    function Model(): string
      reads parser
    {
      ModelOf(explicitModel, parser.options, name)
    }

    /** `interface_serial()`. */
    function InterfaceSerial(): string
      reads parser
    {
      OptionStr(parser.options, name, InterfaceSerialOption)
    }

    /** `interface_number()`. */
    function InterfaceNumber(): Result<int>
      reads parser
    {
      OptionNumber(parser.options, name, InterfaceNumberOption)
    }

    /** `get_dut_serial()`: read from the section, not from the constructor's argument. */
    function GetDutSerial(): string
      reads parser
    {
      OptionStr(parser.options, name, DutSerialOption)
    }

    /** `claim()`: RuntimeError on a claimed module, otherwise the flag goes up. */
    method Claim() returns (r: Result<()>)
      modifies this
      ensures r.Ok? <==> ClaimStep(old(claimed)).Ok?
      ensures r.Err? ==> r.error == RuntimeError && claimed == old(claimed)
      ensures r.Ok? ==> claimed == ClaimStep(old(claimed)).value
      ensures port == old(port)
    {
      if claimed {
        return Err(RuntimeError);
      }
      claimed := true;
      return Ok(());
    }

    /** `free()`: RuntimeError on an unclaimed module, otherwise the flag goes down. */
    method Free() returns (r: Result<()>)
      modifies this
      ensures r.Ok? <==> FreeStep(old(claimed)).Ok?
      ensures r.Err? ==> r.error == RuntimeError && claimed == old(claimed)
      ensures r.Ok? ==> claimed == FreeStep(old(claimed)).value
      ensures port == old(port)
    {
      if !claimed {
        return Err(RuntimeError);
      }
      claimed := false;
      return Ok(());
    }
  }

  /** `__set_options(model, interface_serial, interface_number)`: three writes to the module's section. */
  method SetOptions(parser: ConfigParser, name: string, model: string, serial: string, number: int) returns (r: Result<()>)
    modifies parser
    ensures parser.sections == old(parser.sections)
    ensures r.Ok? <==> name in old(parser.options)
    ensures r.Err? ==> r.error == NoSectionError && parser.options == old(parser.options)
    ensures r.Ok? ==> parser.options == WithModuleOptions(old(parser.options), name, model, serial, number)
  {
    r := parser.Set(name, HwModelOption, model);
    if r.Err? {
      return;
    }
    var _ := parser.Set(name, InterfaceSerialOption, serial);
    var _ := parser.Set(name, InterfaceNumberOption, IntStr(number));
  }

  /**
   * `HwModule(name, parser, model, interface_serial, interface_number, port,
   * dut_serial)`: the checks, writes and lookup of `Construct`, and a fresh
   * unclaimed module on success.
   */
  method NewHwModule(tree: Tree, usb: Usb, name: string, parser: ConfigParser, model: Option<string>,
                     serial: Option<string>, number: Option<string>, port: Option<string>, dutSerial: Option<string>)
    returns (r: Result<HwModule>)
    modifies parser
    ensures parser.sections == old(parser.sections)
    ensures parser.options == Construct(tree, usb, name, old(parser.options), model, serial, number, port).options
    ensures r.Err? <==> Construct(tree, usb, name, old(parser.options), model, serial, number, port).port.Err?
    ensures r.Err? ==> r.error == Construct(tree, usb, name, old(parser.options), model, serial, number, port).port.error
    ensures r.Ok? ==> fresh(r.value) && r.value.parser == parser && r.value.dutSerial == dutSerial
    ensures r.Ok? ==> (r.value.View() ==
      Slot(name, model, false, Construct(tree, usb, name, old(parser.options), model, serial, number, port).port.value))
  {
    var found := port;
    if TruthyStr(model) && TruthyStr(serial) && TruthyStr(number) {
      if port.None? {
        var n := ParseInt(number.value, 10);
        if n.Err? {
          return Err(n.error);
        }
        var written := SetOptions(parser, name, model.value, serial.value, n.value);
        if written.Err? {
          return Err(written.error);
        }
      }
    } else if TruthyStr(model) || TruthyStr(serial) || TruthyStr(number) {
      return Err(ValueError);
    }
    if found.None? {
      var looked := PortLookup(tree, usb, parser.options, name, model);
      if looked.Err? {
        return Err(looked.error);
      }
      found := Some(looked.value);
    }
    var m := new HwModule(name, parser, model, found.value, dutSerial);
    return Ok(m);
  }

  // ------------------------------------------------------------ lemmas

  /** Claiming an unclaimed module and freeing it again gives back the unclaimed module. */
  lemma ClaimThenFree(claimed: bool)
    requires !claimed
    ensures ClaimStep(claimed).Ok? && FreeStep(ClaimStep(claimed).value) == Ok(claimed)
  {
  }

  /** Model, serial and number are given all together or not at all: a partial set raises ValueError and writes nothing. */
  lemma PartialArgumentsRejected(tree: Tree, usb: Usb, name: string, options: Options, model: Option<string>,
                                 serial: Option<string>, number: Option<string>, port: Option<string>)
    requires TruthyStr(model) || TruthyStr(serial) || TruthyStr(number)
    requires !(TruthyStr(model) && TruthyStr(serial) && TruthyStr(number))
    ensures Construct(tree, usb, name, options, model, serial, number, port) == Built(options, Err(ValueError))
  {
  }

  /** With none of the three given, the parser is left alone and the port is the given one or the one looked up. */
  lemma NoArgumentsReadSection(tree: Tree, usb: Usb, name: string, options: Options, port: Option<string>)
    ensures var b := Construct(tree, usb, name, options, None, None, None, port);
      && b.options == options
      && b.port == (if port.Some? then Ok(port.value) else PortLookup(tree, usb, options, name, None))
  {
  }

  /** Three writes to distinct keys of a section all read back. */
  lemma ThreeWrites(sec: map<string, string>, k1: string, v1: string, k2: string, v2: string, k3: string, v3: string)
    requires k1 != k2 && k1 != k3 && k2 != k3
    ensures var t := sec[k1 := v1][k2 := v2][k3 := v3];
      k1 in t && k2 in t && k3 in t && t[k1] == v1 && t[k2] == v2 && t[k3] == v3
  {
  }

  /** What `__set_options` writes reads back through the option getters; other sections keep their options. */
  lemma WrittenReadsBack(options: Options, name: string, model: string, serial: string, n: int)
    requires name in options
    ensures var w := WithModuleOptions(options, name, model, serial, n);
      && w.Keys == options.Keys
      && ModelOf(None, w, name) == model
      && OptionStr(w, name, InterfaceSerialOption) == serial
      && OptionNumber(w, name, InterfaceNumberOption) == Ok(n)
      && (forall s :: s in options && s != name ==> w[s] == options[s])
  {
    var w := WithModuleOptions(options, name, model, serial, n);
    WrittenOptions(options, name, model, serial, n);
    NumberReadsBack(w, name, InterfaceNumberOption, n);
  }

  /** The three options `__set_options` writes, as the section holds them afterwards. */
  lemma WrittenOptions(options: Options, name: string, model: string, serial: string, n: int)
    requires name in options
    ensures var w := WithModuleOptions(options, name, model, serial, n);
      && w.Keys == options.Keys
      && HasOption(w, name, HwModelOption) && w[name][HwModelOption] == model
      && HasOption(w, name, InterfaceSerialOption) && w[name][InterfaceSerialOption] == serial
      && HasOption(w, name, InterfaceNumberOption) && w[name][InterfaceNumberOption] == IntStr(n)
      && (forall s :: s in options && s != name ==> w[s] == options[s])
  {
    var w := WithModuleOptions(options, name, model, serial, n);
    assert |HwModelOption| == 7 && |InterfaceSerialOption| == 21 && |InterfaceNumberOption| == 18;
    ThreeWrites(options[name], HwModelOption, model, InterfaceSerialOption, serial, InterfaceNumberOption, IntStr(n));
    assert w.Keys == options.Keys by {
      assert forall k :: k in w <==> k in options;
    }
    forall s | s in options && s != name
      ensures w[s] == options[s]
    {
    }
  }

  /** An option holding `str(n)` reads back as `n`. */
  lemma NumberReadsBack(options: Options, section: string, option: string, n: int)
    requires HasOption(options, section, option) && options[section][option] == IntStr(n)
    ensures OptionNumber(options, section, option) == Ok(n)
  {
    ParseDecOfIntStr(n);
    FloatOfInteger(IntStr(n));
  }

  /** A number written as a float in the section is cut toward zero; an infinite one raises OverflowError. */
  lemma FloatOptionRead(options: Options, section: string, option: string)
    requires HasOption(options, section, option)
    ensures options[section][option] == "2.7" ==> OptionNumber(options, section, option) == Ok(2)
    ensures options[section][option] == "inf" ==> OptionNumber(options, section, option) == Err(OverflowError)
  {
    FloatFractionExample();
    FloatInfinityExample();
  }

  /**
   * With all three given and no port, the section afterwards holds them,
   * the module's model is the given one and the number reads back as the
   * integer given.
   */
  lemma ArgumentsWritten(tree: Tree, usb: Usb, name: string, options: Options, model: string, serial: string, number: string)
    requires model != [] && serial != [] && number != [] && name in options
    requires ParseInt(number, 10).Ok?
    ensures var b := Construct(tree, usb, name, options, Some(model), Some(serial), Some(number), None);
      && b.options.Keys == options.Keys
      && ModelOf(None, b.options, name) == model
      && OptionStr(b.options, name, InterfaceSerialOption) == serial
      && OptionNumber(b.options, name, InterfaceNumberOption) == ParseInt(number, 10)
      && (forall s :: s in options && s != name ==> b.options[s] == options[s])
  {
    var n := ParseInt(number, 10).value;
    WrittenReadsBack(options, name, model, serial, n);
    assert Written(options, name, model, serial, number) == Ok(WithModuleOptions(options, name, model, serial, n));
  }

  /** A number that does not read as an integer raises ValueError before anything is written. */
  lemma BadNumberRejected(tree: Tree, usb: Usb, name: string, options: Options, model: string, serial: string, number: string)
    requires model != [] && serial != [] && number != []
    requires ParseInt(number, 10).Err?
    ensures Construct(tree, usb, name, options, Some(model), Some(serial), Some(number), None) == Built(options, Err(ValueError))
  {
  }

  /** A section the parser lacks cannot take the given options: NoSectionError. */
  lemma MissingSectionRejected(tree: Tree, usb: Usb, name: string, options: Options, model: string, serial: string, number: string)
    requires model != [] && serial != [] && number != [] && name !in options
    requires ParseInt(number, 10).Ok?
    ensures Construct(tree, usb, name, options, Some(model), Some(serial), Some(number), None) == Built(options, Err(NoSectionError))
  {
  }

  /**
   * An Efr32 section is found in the silk/ tree when its device is attached,
   * and always rejected as unsupported in the src/ tree.
   */
  lemma Efr32OnlyInSilk(usb: Usb, options: Options, name: string, serial: string, number: int)
    requires (Efr32, serial, number) in usb
    requires HasOption(options, name, InterfaceSerialOption) && options[name][InterfaceSerialOption] == serial
    requires OptionNumber(options, name, InterfaceNumberOption) == Ok(number)
    ensures PortLookup(Silk, usb, options, name, Some(Efr32)) == Ok(usb[(Efr32, serial, number)])
    ensures PortLookup(Src, usb, options, name, Some(Efr32)) == Err(RuntimeError)
  {
  }

  /**
   * The src/ tree finds a Nordic sniffer under the nRF52840 model: the port
   * it settles on is the nRF52840 device's, and a sniffer known only under
   * its own model is not found, where silk/ finds it.
   */
  lemma SrcSearchesAsNrf52840(usb: Usb, options: Options, name: string, serial: string, number: int)
    requires (NordicSniffer, serial, number) in usb && (Nrf52840, serial, number) !in usb
    requires OptionStr(options, name, InterfaceSerialOption) == serial
    requires OptionNumber(options, name, InterfaceNumberOption) == Ok(number)
    ensures PortLookup(Silk, usb, options, name, Some(NordicSniffer)) == Ok(usb[(NordicSniffer, serial, number)])
    ensures PortLookup(Src, usb, options, name, Some(NordicSniffer)) == Err(RuntimeError)
  {
  }

  /** A module built with an explicit model reports it, whatever its section says. */
  lemma ExplicitModelWins(explicitModel: string, options: Options, name: string)
    ensures ModelOf(Some(explicitModel), options, name) == explicitModel
  {
  }
}
