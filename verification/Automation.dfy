/**
 Automations of a communicator: the payload written by the newAutomation handler and the
 parser of the register a device reports them in (parser.js).
 */
module Automation {
  import opened Options
  import opened Words
  import opened Text
  import opened WireFormat

  /** The body of a newAutomation request; None is an absent field. */
  datatype Request = Request(numero: int, tipo: string, particion: int,
                             horaInicio: Option<string>, horaFin: Option<string>, horas: Option<int>,
                             nodos: seq<int>)

  /** parseRegisterConfigNodos' result; None is a field that is not set or is undefined. */
  datatype Config = Config(numero: Option<Byte>, tipo: Option<string>, particion: Option<Byte>,
                           horaInicio: Option<string>, horaFin: Option<string>, horas: Option<Byte>,
                           nodos: Option<seq<Option<Byte>>>)

  const SET := 0x02
  const EVENT := 0x0b
  const CONFIGURACIONES_NODOS: nat := 0x16

  /** A handler either returns or throws (TypeError, RangeError). */
  datatype Outcome<+T> = Returned(value: T) | Thrown

  // ---------------------------------------------------------------- encoding

  /** NaN and undefined become zero in a byte buffer. */
  function NumberOrZero(n: Option<int>): int {
    if n.Some? then n.value else 0
  }

  /** parseInt of the part before the colon, and of the part after it. */
  function Hour(time: string): nat {
    var n := ParseInt(FirstField(time, ':'));
    if n.Some? then n.value else 0
  }

  function Minute(time: string): nat {
    var field := SecondField(time, ':');
    if field.None? then 0 else
    var n := ParseInt(field.value);
    if n.Some? then n.value else 0
  }

  /** The node written at position i: missing and zero nodes become 0xff. */
  function NodeAt(nodos: seq<int>, i: nat): int {
    if i < |nodos| && nodos[i] != 0 then nodos[i] else 0xff
  }

  function Nodes(nodos: seq<int>): (r: seq<int>)
    ensures |r| == 5 && forall i :: 0 <= i < 5 ==> r[i] == NodeAt(nodos, i)
  {
    seq(5, i requires 0 <= i < 5 => NodeAt(nodos, i))
  }

  /** The bytes between the automation number and the nodes. */
  function TypeBytes(r: Request): Outcome<seq<int>> {
    if r.tipo == "fototimer" then
      Returned([2, r.particion, NumberOrZero(r.horas)])
    else if r.tipo == "programacion_horaria" then
      if r.horaInicio.None? || r.horaFin.None? then Thrown
      else Returned([1, r.particion, Hour(r.horaInicio.value), Minute(r.horaInicio.value),
                     Hour(r.horaFin.value), Minute(r.horaFin.value)])
    else if r.tipo == "noche" then Returned([3, r.particion])
    else if r.tipo == "simulador" then Returned([4, r.particion])
    else Returned([])
  }

  function Payload(r: Request): Outcome<seq<int>> {
    match TypeBytes(r)
    case Thrown => Thrown
    case Returned(bytes) => Returned([r.numero] + bytes + Nodes(r.nodos))
  }

  /** The message part of newAutomation: SET, register CONFIGURACIONES_NODOS. */
  method NewAutomationFrame(r: Request, now: Now, draw: real) returns (frame: Outcome<seq<Byte>>)
    requires 0.0 <= draw < 1.0
    ensures frame.Thrown? <==> Payload(r).Thrown?
    ensures frame.Returned? ==>
              Some(frame.value) == Frame(0x02, 0x16, r.particion - 1, now,
                                         (draw * 255.0).Floor, Payload(r).value)
  {
    var msg := new BrokerMessage(SET, CONFIGURACIONES_NODOS, r.particion - 1, draw);
    msg.AddByte(r.numero);
    if r.tipo == "programacion_horaria" && (r.horaInicio.None? || r.horaFin.None?) {
      return Thrown;  // split of undefined
    }
    AddTypeBytes(msg, r);
    AddNodes(msg, r.nodos);
    assert msg.payload == Payload(r).value;
    var buffer := msg.GetBufferToSend(now);
    return Returned(buffer.value);
  }

  /** The switch over the type. */
  method AddTypeBytes(msg: BrokerMessage, r: Request)
    requires msg.Valid() && TypeBytes(r).Returned?
    modifies msg`payload, msg`length
    ensures msg.Valid() && msg.payload == old(msg.payload) + TypeBytes(r).value
  {
    if r.tipo == "fototimer" {
      msg.AddByte(2);
      msg.AddByte(r.particion);
      msg.AddByte(NumberOrZero(r.horas));
    } else if r.tipo == "programacion_horaria" {
      msg.AddByte(1);
      msg.AddByte(r.particion);
      msg.AddByte(Hour(r.horaInicio.value));
      msg.AddByte(Minute(r.horaInicio.value));
      msg.AddByte(Hour(r.horaFin.value));
      msg.AddByte(Minute(r.horaFin.value));
    } else if r.tipo == "noche" {
      msg.AddByte(3);
      msg.AddByte(r.particion);
    } else if r.tipo == "simulador" {
      msg.AddByte(4);
      msg.AddByte(r.particion);
    }
  }

  /** The loop over the five node positions. */
  method AddNodes(msg: BrokerMessage, nodos: seq<int>)
    requires msg.Valid()
    modifies msg`payload, msg`length
    ensures msg.Valid() && msg.payload == old(msg.payload) + Nodes(nodos)
  {
    for i := 0 to 5
      invariant msg.Valid() && msg.payload == old(msg.payload) + Nodes(nodos)[..i]
    {
      if i < |nodos| && nodos[i] != 0 {
        msg.AddByte(nodos[i]);
      } else {
        msg.AddByte(0xff);
      }
    }
  }

  // ---------------------------------------------------------------- decoding

  /** TiposAutomatizacion[n] */
  function TypeName(n: Option<Byte>): Option<string> {
    match n
    case None => None
    case Some(0) => Some("null")
    case Some(1) => Some("programacion_horaria")
    case Some(2) => Some("fototimer")
    case Some(3) => Some("noche")
    case Some(4) => Some("simulador")
    case _ => None
  }

  /** payload[i], undefined beyond the end. */
  function Field(p: seq<Option<Byte>>, i: nat): Option<Byte> {
    if i < |p| then p[i] else None
  }

  /** A time as the parser shows it: both numbers padded to two digits. */
  function TimeText(hours: nat, minutes: nat): string {
    PadZeros(Numeral(hours, 10), 2) + ":" + PadZeros(Numeral(minutes, 10), 2)
  }

  function NodeFields(p: seq<Option<Byte>>, from: nat): (r: seq<Option<Byte>>)
    ensures |r| == 5 && forall i :: 0 <= i < 5 ==> r[i] == Field(p, from + i)
  {
    seq(5, i requires 0 <= i < 5 => Field(p, from + i))
  }

  /** parseRegisterConfigNodos on a message with command EVENT; toString of undefined throws. */
  function ParseConfig(m: Parsed): Outcome<Config> {
    var p := m.payload;
    var base := Config(Field(p, 0), TypeName(Field(p, 1)), Field(p, 2), None, None, None, None);
    if m.comando != Some(EVENT) then
      Returned(Config(None, None, None, None, None, None, None))
    else if base.tipo == Some("programacion_horaria") then
      if Field(p, 3).None? || Field(p, 4).None? || Field(p, 5).None? || Field(p, 6).None? then Thrown
      else Returned(base.(horaInicio := Some(TimeText(Field(p, 3).value, Field(p, 4).value)),
                          horaFin := Some(TimeText(Field(p, 5).value, Field(p, 6).value)),
                          nodos := Some(NodeFields(p, 7))))
    else if base.tipo == Some("fototimer") then
      Returned(base.(horas := Field(p, 3), nodos := Some(NodeFields(p, 4))))
    else if base.tipo == Some("noche") || base.tipo == Some("simulador") then
      Returned(base.(nodos := Some(NodeFields(p, 3))))
    else Returned(base)
  }

  /** parseRegisterConfigNodos */
  method ParseRegisterConfigNodos(m: Parsed) returns (config: Outcome<Config>)
    ensures config == ParseConfig(m)
  {
    if m.comando != Some(EVENT) {
      return Returned(Config(None, None, None, None, None, None, None));
    }
    var p := m.payload;
    var c := Config(Field(p, 0), TypeName(Field(p, 1)), Field(p, 2), None, None, None, None);
    if c.tipo == Some("programacion_horaria") {
      var inicioHora, inicioMinutos := Field(p, 3), Field(p, 4);
      var finHora, finMinutos := Field(p, 5), Field(p, 6);
      if inicioHora.None? || inicioMinutos.None? || finHora.None? || finMinutos.None? {
        return Thrown;
      }
      var nodos := PushNodes(p, 7);
      c := c.(horaInicio := Some(TimeText(inicioHora.value, inicioMinutos.value)),
              horaFin := Some(TimeText(finHora.value, finMinutos.value)),
              nodos := Some(nodos));
    } else if c.tipo == Some("fototimer") {
      var nodos := PushNodes(p, 4);
      c := c.(horas := Field(p, 3), nodos := Some(nodos));
    } else if c.tipo == Some("noche") || c.tipo == Some("simulador") {
      var nodos := PushNodes(p, 3);
      c := c.(nodos := Some(nodos));
    }
    return Returned(c);
  }

  /** The loop that pushes the five nodes. */
  method PushNodes(p: seq<Option<Byte>>, from: nat) returns (nodos: seq<Option<Byte>>)
    ensures nodos == NodeFields(p, from)
  {
    nodos := [];
    for i := 0 to 5
      invariant nodos == NodeFields(p, from)[..i]
    {
      nodos := nodos + [Field(p, i + from)];
    }
  }

  // ---------------------------------------------------------------- round trip

  predicate KnownType(tipo: string) {
    tipo in {"programacion_horaria", "fototimer", "noche", "simulador"}
  }

  /** What a device reports back for a request, with numbers cut to bytes. */
  function Reported(r: Request): Config
    requires r.tipo == "programacion_horaria" ==> r.horaInicio.Some? && r.horaFin.Some?
  {
    Config(Some(Wrap8(r.numero)), Some(r.tipo), Some(Wrap8(r.particion)),
           if r.tipo == "programacion_horaria" then Some(Shown(r.horaInicio.value)) else None,
           if r.tipo == "programacion_horaria" then Some(Shown(r.horaFin.value)) else None,
           if r.tipo != "fototimer" then None else Some(if r.horas.Some? then Wrap8(r.horas.value) else 0),
           Some(Defined(ToBytes(Nodes(r.nodos)))))
  }

  /** A requested time as it is reported back. */
  function Shown(time: string): string {
    TimeOfBytes(Hour(time), Minute(time))
  }

  /** Two numbers that passed through a byte each, as a time. */
  function TimeOfBytes(hours: nat, minutes: nat): string {
    TimeText(Wrap8(hours), Wrap8(minutes))
  }

  /**
   For the four known types the encoder throws only if a time is missing, and decoding a frame
   that reports the encoded payload returns every field of the request.
   */
  lemma AutomationRoundTrip(r: Request, register: nat, layer: int, now: Now, random: nat)
    requires KnownType(r.tipo) && register < 0x1_0000
    requires r.tipo == "programacion_horaria" ==> r.horaInicio.Some? && r.horaFin.Some?
    ensures Payload(r).Returned?
    ensures var frame := Frame(EVENT, register, layer, now, random, Payload(r).value);
            && frame.Some? && ParseHeader(frame.value).Some?
            && ParseConfig(ParseHeader(frame.value).value) == Returned(Reported(r))
  {
    PayloadIsShort(r);
    var m := ReportArrives(register, layer, now, random, Payload(r).value);
    DecodesReported(r, m);
  }

  lemma ReportArrives(register: nat, layer: int, now: Now, random: nat, payload: seq<int>) returns (m: Parsed)
    requires register < 0x1_0000 && |payload| < 256
    ensures var frame := Frame(EVENT, register, layer, now, random, payload);
            frame.Some? && ParseHeader(frame.value) == Some(m)
    ensures m.comando == Some(EVENT) && m.payload == Defined(ToBytes(payload))
  {
    ShortPayloadArrives(EVENT, register, layer, now, random, payload);
    m := ParseHeader(Frame(EVENT, register, layer, now, random, payload).value).value;
  }

  lemma PayloadIsShort(r: Request)
    requires KnownType(r.tipo)
    requires r.tipo == "programacion_horaria" ==> r.horaInicio.Some? && r.horaFin.Some?
    ensures Payload(r).Returned? && |Payload(r).value| < 256
  {
  }

  /** The payload fields, position by position. */
  ghost predicate LaidOut(p: seq<Option<Byte>>, numero: int, bytes: seq<int>, nodos: seq<int>) {
    && Field(p, 0) == Some(Wrap8(numero))
    && (forall i :: 0 <= i < |bytes| ==> Field(p, 1 + i) == Some(Wrap8(bytes[i])))
    && NodeFields(p, 1 + |bytes|) == Defined(ToBytes(Nodes(nodos)))
  }

  lemma DecodesReported(r: Request, m: Parsed)
    requires KnownType(r.tipo) && m.comando == Some(EVENT)
    requires r.tipo == "programacion_horaria" ==> r.horaInicio.Some? && r.horaFin.Some?
    requires m.payload == Defined(ToBytes(Payload(r).value))
    ensures ParseConfig(m) == Returned(Reported(r))
  {
    PayloadLayout(r.numero, TypeBytes(r).value, r.nodos);
    if r.tipo == "programacion_horaria" {
      DecodesSchedule(r, m);
    } else {
      DecodesOther(r, m);
    }
  }

  lemma DecodesOther(r: Request, m: Parsed)
    requires r.tipo in {"fototimer", "noche", "simulador"} && m.comando == Some(EVENT)
    requires LaidOut(m.payload, r.numero, TypeBytes(r).value, r.nodos)
    ensures ParseConfig(m) == Returned(Reported(r))
  {
    var p, bytes := m.payload, TypeBytes(r).value;
    assert Field(p, 1) == Some(Wrap8(bytes[0])) && Field(p, 2) == Some(Wrap8(bytes[1]));
    if r.tipo == "fototimer" {
      assert bytes[0] == 2 && Field(p, 3) == Some(Wrap8(bytes[2]));
    }
    assert TypeName(Field(p, 1)) == Some(r.tipo);
  }

  lemma DecodesSchedule(r: Request, m: Parsed)
    requires r.tipo == "programacion_horaria" && m.comando == Some(EVENT)
    requires r.horaInicio.Some? && r.horaFin.Some?
    requires LaidOut(m.payload, r.numero, TypeBytes(r).value, r.nodos)
    ensures ParseConfig(m) == Returned(Reported(r))
  {
    var p, bytes := m.payload, TypeBytes(r).value;
    assert bytes[0] == 1 && bytes[1] == r.particion;
    assert Field(p, 1) == Some(1) && TypeName(Field(p, 1)) == Some(r.tipo);
    assert Field(p, 3) == Some(Wrap8(bytes[2])) && Field(p, 4) == Some(Wrap8(bytes[3]));
    assert Field(p, 5) == Some(Wrap8(bytes[4])) && Field(p, 6) == Some(Wrap8(bytes[5]));
  }

  lemma PayloadLayout(numero: int, bytes: seq<int>, nodos: seq<int>)
    ensures LaidOut(Defined(ToBytes([numero] + bytes + Nodes(nodos))), numero, bytes, nodos)
  {
    var q := [numero] + bytes + Nodes(nodos);
    var p := Defined(ToBytes(q));
    forall i | 0 <= i < |bytes| ensures Field(p, 1 + i) == Some(Wrap8(bytes[i])) {
      assert q[1 + i] == bytes[i];
    }
    forall i | 0 <= i < 5 ensures NodeFields(p, 1 + |bytes|)[i] == Defined(ToBytes(Nodes(nodos)))[i] {
      assert q[1 + |bytes| + i] == Nodes(nodos)[i];
    }
  }

  // ---------------------------------------------------------------- the other way round

  /** The known types under their numbers in a report. */
  const TYPES := ["null", "programacion_horaria", "fototimer", "noche", "simulador"]

  /** A report that shows a time must have all four bytes of the two times. */
  predicate TimesMissing(m: Parsed) {
    && m.comando == Some(0x0b) && Field(m.payload, 1) == Some(1)
    && exists i :: 3 <= i < 7 && Field(m.payload, i).None?
  }

  /** Which fields a report sets: none unless it is an event, and beyond the first three what the type asks for. */
  predicate ShowsType(c: Config, m: Parsed) {
    var tipo := if m.comando == Some(0x0b) then Field(m.payload, 1) else None;
    && (m.comando == Some(0x0b) ==> c.numero == Field(m.payload, 0) && c.particion == Field(m.payload, 2))
    && (m.comando != Some(0x0b) ==> c.numero == None && c.particion == None)
    && c.tipo == (if tipo.Some? && tipo.value < 5 then Some(TYPES[tipo.value]) else None)
    && (c.horaInicio.Some? <==> tipo == Some(1)) && (c.horaFin.Some? <==> tipo == Some(1))
    && (c.nodos.Some? <==> tipo.Some? && 1 <= tipo.value <= 4)
    && (tipo == Some(2) ==> c.horas == Field(m.payload, 3)) && (tipo != Some(2) ==> c.horas == None)
  }

  lemma ReportShowsType(m: Parsed)
    ensures ParseConfig(m).Thrown? <==> TimesMissing(m)
    ensures ParseConfig(m).Returned? ==> ShowsType(ParseConfig(m).value, m)
  {
    assert TimesMissing(m) ==> Field(m.payload, 3).None? || Field(m.payload, 4).None?
                               || Field(m.payload, 5).None? || Field(m.payload, 6).None?;
  }

  /** The bytes of a report of one of the known types, no more and no fewer. */
  predicate CompleteReport(bytes: seq<Byte>) {
    |bytes| >= 2 && 1 <= bytes[1] <= 4 && |bytes| == if bytes[1] == 1 then 12 else if bytes[1] == 2 then 9 else 8
  }

  /** The request that would set what a report shows. */
  function AsRequest(c: Config): Request
    requires c.numero.Some? && c.tipo.Some? && c.particion.Some? && c.nodos.Some?
    requires forall n <- c.nodos.value :: n.Some?
  {
    Request(c.numero.value, c.tipo.value, c.particion.value, c.horaInicio, c.horaFin,
            if c.horas.Some? then Some(c.horas.value) else None,
            seq(|c.nodos.value|, i requires 0 <= i < |c.nodos.value| => c.nodos.value[i].value))
  }

  /** The last five bytes, with 0xff for zero. */
  function NodesSet(bytes: seq<Byte>): seq<int>
    requires |bytes| >= 5
  {
    seq(5, i requires 0 <= i < 5 =>
      if bytes[|bytes| - 5 + i] == 0 then 0xff else bytes[|bytes| - 5 + i] as int)
  }

  /** A config that requests can be made from, and the bytes its request writes. */
  predicate Reencodes(c: Config, bytes: seq<Byte>)
    requires |bytes| >= 5
  {
    && c.numero.Some? && c.tipo.Some? && c.particion.Some? && c.nodos.Some?
    && (forall n <- c.nodos.value :: n.Some?)
    && Payload(AsRequest(c)) == Returned(bytes[..|bytes| - 5] + NodesSet(bytes))
  }

  /**
   Requesting again what a report shows writes the bytes of the report, except that zero nodes
   become 0xff.
   */
  lemma ReportReencodes(m: Parsed, bytes: seq<Byte>)
    requires m.comando == Some(0x0b) && m.payload == Defined(bytes) && CompleteReport(bytes)
    ensures ParseConfig(m).Returned? && Reencodes(ParseConfig(m).value, bytes)
  {
    NodesAtEnd(bytes);
    match bytes[1] {
      case 1 => ReencodesSchedule(m, bytes);
      case 2 => ReencodesTimer(m, bytes);
      case _ => ReencodesOther(m, bytes);
    }
  }

  lemma ReencodesSchedule(m: Parsed, bytes: seq<Byte>)
    requires m.comando == Some(0x0b) && m.payload == Defined(bytes) && |bytes| == 12 && bytes[1] == 1
    requires NodeFields(m.payload, 7) == Defined(bytes[7..])
    ensures ParseConfig(m).Returned? && Reencodes(ParseConfig(m).value, bytes)
  {
    var start, end := TimeText(bytes[3], bytes[4]), TimeText(bytes[5], bytes[6]);
    var c := Config(Some(bytes[0]), Some("programacion_horaria"), Some(bytes[2]), Some(start), Some(end), None,
                    Some(Defined(bytes[7..])));
    assert ParseConfig(m) == Returned(c);
    TimeTextParses(bytes[3], bytes[4]);
    TimeTextParses(bytes[5], bytes[6]);
    ScheduleWritten(bytes, c, start, end);
  }

  lemma ScheduleWritten(bytes: seq<Byte>, c: Config, start: string, end: string)
    requires |bytes| == 12 && bytes[1] == 1
    requires Hour(start) == bytes[3] && Minute(start) == bytes[4]
    requires Hour(end) == bytes[5] && Minute(end) == bytes[6]
    requires c == Config(Some(bytes[0]), Some("programacion_horaria"), Some(bytes[2]), Some(start), Some(end), None,
                         Some(Defined(bytes[7..])))
    ensures Reencodes(c, bytes)
  {
    NodesWritten(bytes, c);
    var r := AsRequest(c);
    var rest: seq<int> := [1, r.particion, Hour(start), Minute(start), Hour(end), Minute(end)];
    assert TypeBytes(r) == Returned(rest);
    assert [r.numero] + rest == bytes[..7];
  }

  lemma NodesWritten(bytes: seq<Byte>, c: Config)
    requires |bytes| >= 5 && c.nodos == Some(Defined(bytes[|bytes| - 5..]))
    requires c.numero.Some? && c.tipo.Some? && c.particion.Some?
    ensures Nodes(AsRequest(c).nodos) == NodesSet(bytes)
  {
  }

  lemma ReencodesTimer(m: Parsed, bytes: seq<Byte>)
    requires m.comando == Some(0x0b) && m.payload == Defined(bytes) && |bytes| == 9 && bytes[1] == 2
    requires NodeFields(m.payload, 4) == Defined(bytes[4..])
    ensures ParseConfig(m).Returned? && Reencodes(ParseConfig(m).value, bytes)
  {
    var r := AsRequest(ParseConfig(m).value);
    assert Nodes(r.nodos) == NodesSet(bytes);
    assert [r.numero] + TypeBytes(r).value == bytes[..4];
  }

  lemma ReencodesOther(m: Parsed, bytes: seq<Byte>)
    requires m.comando == Some(0x0b) && m.payload == Defined(bytes) && |bytes| == 8 && 3 <= bytes[1] <= 4
    requires NodeFields(m.payload, 3) == Defined(bytes[3..])
    ensures ParseConfig(m).Returned? && Reencodes(ParseConfig(m).value, bytes)
  {
    var r := AsRequest(ParseConfig(m).value);
    assert Nodes(r.nodos) == NodesSet(bytes);
    assert [r.numero] + TypeBytes(r).value == bytes[..3];
  }

  lemma NodesAtEnd(bytes: seq<Byte>)
    requires |bytes| >= 5
    ensures NodeFields(Defined(bytes), |bytes| - 5) == Defined(bytes[|bytes| - 5..])
  {
  }

  /**
   For any other type only the number and the nodes are written, and the first two nodes are read
   as type and partition.
   */
  lemma UnknownTypeMisread(r: Request, m: Parsed)
    requires !KnownType(r.tipo) && m.comando == Some(0x0b)
    ensures Payload(r) == Returned([r.numero] + Nodes(r.nodos))
    ensures m.payload == Defined(ToBytes(Payload(r).value)) && ParseConfig(m).Returned? ==>
              var c := ParseConfig(m).value;
              && c.tipo == TypeName(Some(Wrap8(NodeAt(r.nodos, 0))))
              && c.particion == Some(Wrap8(NodeAt(r.nodos, 1)))
  {
    assert [r.numero] + [] + Nodes(r.nodos) == [r.numero] + Nodes(r.nodos);
  }

  /** Text without a number counts as zero: before the colon, after it, or without any colon. */
  lemma UnreadableTimeIsZero(a: string, b: string)
    requires ':' !in a && ':' !in b
    ensures Hour(a) == Hour(a + ":" + b) && Minute(a) == 0
    ensures (a == "" || !IsDigit(a[0])) ==> Hour(a) == 0
    ensures (b == "" || !IsDigit(b[0])) ==> Minute(a + ":" + b) == 0
  {
    SplitTwo(a, b, ':');
    assert FieldEnd(a, ':') == |a| && a[..|a|] == a;
  }

  /** A time is reported back as it was requested exactly when it is the padded text of two bytes. */
  lemma TimeUnchangedIff(time: string)
    ensures Shown(time) == time <==> exists h: Byte, m: Byte :: time == TimeText(h, m)
  {
    if h: Byte, m: Byte :| time == TimeText(h, m) {
      TimeTextReadsBack(h, m);
    }
  }

  lemma TimeTextReadsBack(h: Byte, m: Byte)
    ensures Hour(TimeText(h, m)) == h && Minute(TimeText(h, m)) == m
    ensures Shown(TimeText(h, m)) == TimeText(h, m)
  {
    TimeTextParses(h, m);
    BytesUnchanged(h, m);
  }

  lemma BytesUnchanged(h: Byte, m: Byte)
    ensures TimeOfBytes(h, m) == TimeText(h, m)
  {
  }

  lemma TimeTextParses(h: nat, m: nat)
    ensures Hour(TimeText(h, m)) == h && Minute(TimeText(h, m)) == m
  {
    var a, b := PadZeros(Numeral(h, 10), 2), PadZeros(Numeral(m, 10), 2);
    ParsesBack(h);
    ParsesBack(m);
    ReadTime(a, b);
  }

  lemma ParsesBack(n: nat)
    ensures var a := PadZeros(Numeral(n, 10), 2);
            IsNumeral(a, 10) && ParseInt(a) == Some(n)
  {
    PaddedDenotes(n, 10, 2);
    ParseIntReadsNumeral(n, 2);
  }

  lemma ReadTime(a: string, b: string)
    requires IsNumeral(a, 10) && ParseInt(a).Some?
    requires IsNumeral(b, 10) && ParseInt(b).Some?
    ensures Hour(a + ":" + b) == ParseInt(a).value && Minute(a + ":" + b) == ParseInt(b).value
  {
    SplitTwo(a, b, ':');
  }

  /** Nodes come back unchanged except that missing and zero nodes are 0xff. */
  lemma NodesReported(nodos: seq<int>, i: nat)
    requires i < 5 && (i < |nodos| ==> 0 <= nodos[i] < 256)
    ensures Defined(ToBytes(Nodes(nodos)))[i]
            == Some(if i < |nodos| && nodos[i] != 0 then nodos[i] else 0xff)
  {
  }
}
