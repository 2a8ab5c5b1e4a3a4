/** The player profile on the wire
    (bridge/paper/src/main/kotlin/net/aethernet/cloud/NbtSerializer.kt), without the GZIP layer
    around it. Item stacks are the bytes Bukkit makes of them. */
module ProfileCodec {
  import opened Types
  import opened ByteStreams

  /** Empty slots come as null or as air. */
  datatype Slot = Null | Air | Stack(bytes: seq<byte>)

  /** What the reader makes of a slot. */
  type Item = Option<seq<byte>>

  datatype PotionEffect = PotionEffect(
    name: seq<char16>, amplifier: int32, duration: int32, ambient: bool, particles: bool, icon: bool)

  datatype Vitals = Vitals(
    health: bits64, absorption: bits64, foodLevel: int32, saturation: bits32, exhaustion: bits32,
    fireTicks: int32, level: int32, exp: bits32, totalExperience: int32)

  datatype Profile = Profile(
    contents: seq<Slot>, armor: seq<Slot>, offhand: Slot, enderChest: seq<Slot>,
    vitals: Vitals, gameMode: seq<char16>, effects: seq<PotionEffect>)

  /** What the reader reads. */
  datatype Image = Image(
    contents: seq<Item>, armor: seq<Item>, offhand: seq<Item>, enderChest: seq<Item>,
    vitals: Vitals, gameMode: seq<char16>, effects: seq<PotionEffect>)

  const MAX_LENGTH := 0x8000_0000

  /** Arrays and lists of the JVM are indexed by non-negative 32-bit integers. */
  predicate SlotsFit(slots: seq<Slot>) {
    |slots| < MAX_LENGTH && forall s | s in slots && s.Stack? :: |s.bytes| < MAX_LENGTH
  }

  predicate Fits(p: Profile) {
    && SlotsFit(p.contents) && SlotsFit(p.armor) && SlotsFit([p.offhand]) && SlotsFit(p.enderChest)
    && |p.effects| < MAX_LENGTH
  }

  function ToItem(s: Slot): (r: Item) {
    if s.Stack? then Some(s.bytes) else None
  }

  function ToItems(s: seq<Slot>): (r: seq<Item>)
    ensures |r| == |s| && forall i | 0 <= i < |s| :: r[i] == ToItem(s[i])
  {
    if s == [] then [] else [ToItem(s[0])] + ToItems(s[1..])
  }

  function ImageOf(p: Profile): (r: Image) {
    Image(ToItems(p.contents), ToItems(p.armor), ToItems([p.offhand]), ToItems(p.enderChest),
          p.vitals, p.gameMode, p.effects)
  }

  // ---- item arrays ------------------------------------------------------------

  function PutSlot(s: Slot): (r: seq<byte>)
    requires s.Stack? ==> |s.bytes| < MAX_LENGTH
  {
    if s.Stack? then PutBool(true) + PutInt(|s.bytes|) + s.bytes else PutBool(false)
  }

  function PutSlots(slots: seq<Slot>): (r: seq<byte>)
    requires forall s | s in slots && s.Stack? :: |s.bytes| < MAX_LENGTH
  {
    if slots == [] then [] else PutSlot(slots[0]) + PutSlots(slots[1..])
  }

  function PutItems(slots: seq<Slot>): (r: seq<byte>)
    requires SlotsFit(slots)
  {
    PutInt(|slots|) + PutSlots(slots)
  }

  /** A negative length makes the array allocation throw. */
  function GetSlot(s: seq<byte>): (r: Parse<Item>) {
    match GetBool(s)
    case None => None
    case Some((present, rest)) =>
      if !present then Some((None, rest))
      else
        match GetInt(rest)
        case None => None
        case Some((n, rest')) =>
          if n < 0 then None
          else
            match GetBytes(n, rest')
            case None => None
            case Some((b, tail)) => Some((Some(b), tail))
  }

  function GetSlots(n: nat, s: seq<byte>): (r: Parse<seq<Item>>)
    decreases n
  {
    if n == 0 then Some(([], s))
    else
      match GetSlot(s)
      case None => None
      case Some((item, rest)) =>
        match GetSlots(n - 1, rest)
        case None => None
        case Some((items, tail)) => Some(([item] + items, tail))
  }

  function GetItems(s: seq<byte>): (r: Parse<seq<Item>>) {
    match GetInt(s)
    case None => None
    case Some((n, rest)) => if n < 0 then None else GetSlots(n, rest)
  }

  lemma SlotRoundTrip(s: Slot, tail: seq<byte>)
    requires s.Stack? ==> |s.bytes| < MAX_LENGTH
    ensures GetSlot(PutSlot(s) + tail) == Some((ToItem(s), tail))
  {
    if s.Stack? {
      var rest := PutInt(|s.bytes|) + (s.bytes + tail);
      assert PutSlot(s) + tail == PutBool(true) + rest;
      assert (PutBool(true) + rest)[1..] == rest;
      IntRoundTrip(|s.bytes|, s.bytes + tail);
      BytesRoundTrip(s.bytes, tail);
    } else {
      assert (PutBool(false) + tail)[1..] == tail;
    }
  }

  lemma {:induction false} SlotsRoundTrip(slots: seq<Slot>, tail: seq<byte>)
    requires forall s | s in slots && s.Stack? :: |s.bytes| < MAX_LENGTH
    ensures GetSlots(|slots|, PutSlots(slots) + tail) == Some((ToItems(slots), tail))
    decreases slots
  {
    hide PutSlot, GetSlot;
    if slots == [] {
      assert PutSlots(slots) + tail == tail;
    } else {
      var rest := PutSlots(slots[1..]) + tail;
      assert PutSlots(slots) + tail == PutSlot(slots[0]) + rest;
      SlotRoundTrip(slots[0], rest);
      SlotsRoundTrip(slots[1..], tail);
    }
  }

  lemma ItemsRoundTrip(slots: seq<Slot>, tail: seq<byte>)
    requires SlotsFit(slots)
    ensures GetItems(PutItems(slots) + tail) == Some((ToItems(slots), tail))
  {
    assert PutItems(slots) + tail == PutInt(|slots|) + (PutSlots(slots) + tail);
    IntRoundTrip(|slots|, PutSlots(slots) + tail);
    SlotsRoundTrip(slots, tail);
  }

  // ---- vitals -----------------------------------------------------------------

  function PutVitals(v: Vitals): (r: seq<byte>) {
    PutDouble(v.health) + (PutDouble(v.absorption) + (PutInt(v.foodLevel) + (PutFloat(v.saturation)
    + (PutFloat(v.exhaustion) + (PutInt(v.fireTicks) + (PutInt(v.level) + (PutFloat(v.exp)
    + PutInt(v.totalExperience))))))))
  }

  function GetVitals(s: seq<byte>): (r: Parse<Vitals>) {
    var a := GetDouble(s);
    if a.None? then None else
    var b := GetDouble(a.value.1);
    if b.None? then None else
    var c := GetInt(b.value.1);
    if c.None? then None else
    var d := GetFloat(c.value.1);
    if d.None? then None else
    var e := GetFloat(d.value.1);
    if e.None? then None else
    var f := GetInt(e.value.1);
    if f.None? then None else
    var g := GetInt(f.value.1);
    if g.None? then None else
    var h := GetFloat(g.value.1);
    if h.None? then None else
    var i := GetInt(h.value.1);
    if i.None? then None else
    Some((Vitals(a.value.0, b.value.0, c.value.0, d.value.0, e.value.0, f.value.0, g.value.0, h.value.0, i.value.0),
          i.value.1))
  }

  lemma VitalsRoundTrip(v: Vitals, tail: seq<byte>)
    ensures GetVitals(PutVitals(v) + tail) == Some((v, tail))
  {
    hide ByteStreams.GetInt, ByteStreams.GetFloat, ByteStreams.GetDouble;
    hide ByteStreams.PutInt, ByteStreams.PutFloat, ByteStreams.PutDouble;
    var t8 := PutInt(v.totalExperience) + tail;
    var t7 := PutFloat(v.exp) + t8;
    var t6 := PutInt(v.level) + t7;
    var t5 := PutInt(v.fireTicks) + t6;
    var t4 := PutFloat(v.exhaustion) + t5;
    var t3 := PutFloat(v.saturation) + t4;
    var t2 := PutInt(v.foodLevel) + t3;
    var t1 := PutDouble(v.absorption) + t2;
    assert PutVitals(v) + tail == PutDouble(v.health) + t1;
    DoubleRoundTrip(v.health, t1);
    DoubleRoundTrip(v.absorption, t2);
    IntRoundTrip(v.foodLevel, t3);
    FloatRoundTrip(v.saturation, t4);
    FloatRoundTrip(v.exhaustion, t5);
    IntRoundTrip(v.fireTicks, t6);
    IntRoundTrip(v.level, t7);
    FloatRoundTrip(v.exp, t8);
    IntRoundTrip(v.totalExperience, tail);
  }

  // ---- potion effects -----------------------------------------------------------

  function PutEffect(e: PotionEffect): (r: seq<byte>) {
    PutUTF(e.name) + (PutInt(e.amplifier) + (PutInt(e.duration)
    + (PutBool(e.ambient) + (PutBool(e.particles) + PutBool(e.icon)))))
  }

  function PutEffects(es: seq<PotionEffect>): (r: seq<byte>) {
    if es == [] then [] else PutEffect(es[0]) + PutEffects(es[1..])
  }

  function GetEffect(s: seq<byte>): (r: Parse<PotionEffect>) {
    var a := GetUTF(s);
    if a.None? then None else
    var b := GetInt(a.value.1);
    if b.None? then None else
    var c := GetInt(b.value.1);
    if c.None? then None else
    var d := GetBool(c.value.1);
    if d.None? then None else
    var e := GetBool(d.value.1);
    if e.None? then None else
    var f := GetBool(e.value.1);
    if f.None? then None else
    Some((PotionEffect(a.value.0, b.value.0, c.value.0, d.value.0, e.value.0, f.value.0), f.value.1))
  }

  function GetEffects(n: nat, s: seq<byte>): (r: Parse<seq<PotionEffect>>)
    decreases n
  {
    if n == 0 then Some(([], s))
    else
      match GetEffect(s)
      case None => None
      case Some((e, rest)) =>
        match GetEffects(n - 1, rest)
        case None => None
        case Some((es, tail)) => Some(([e] + es, tail))
  }

  lemma BoolRoundTrip(b: bool, tail: seq<byte>)
    ensures GetBool(PutBool(b) + tail) == Some((b, tail))
  {
    assert (PutBool(b) + tail)[1..] == tail;
  }

  lemma EffectBytes(e: PotionEffect, tail: seq<byte>)
    ensures PutEffect(e) + tail ==
            PutUTF(e.name) + (PutInt(e.amplifier) + (PutInt(e.duration)
              + (PutBool(e.ambient) + (PutBool(e.particles) + (PutBool(e.icon) + tail)))))
  {
    hide ByteStreams.PutInt, ByteStreams.PutUTF, ByteStreams.PutBool;
  }

  lemma EffectRoundTrip(e: PotionEffect, tail: seq<byte>)
    requires Writable(e.name)
    ensures GetEffect(PutEffect(e) + tail) == Some((e, tail))
  {
    hide ByteStreams.GetInt, ByteStreams.PutInt, ByteStreams.GetUTF, ByteStreams.PutUTF;
    hide ByteStreams.GetBool, ByteStreams.PutBool;
    var t5 := PutBool(e.icon) + tail;
    var t4 := PutBool(e.particles) + t5;
    var t3 := PutBool(e.ambient) + t4;
    var t2 := PutInt(e.duration) + t3;
    var t1 := PutInt(e.amplifier) + t2;
    EffectBytes(e, tail);
    hide PutEffect;
    UTFRoundTrip(e.name, t1);
    IntRoundTrip(e.amplifier, t2);
    IntRoundTrip(e.duration, t3);
    BoolRoundTrip(e.ambient, t4);
    BoolRoundTrip(e.particles, t5);
    BoolRoundTrip(e.icon, tail);
  }

  predicate EffectsWritable(es: seq<PotionEffect>) {
    forall e | e in es :: Writable(e.name)
  }

  lemma {:induction false} EffectsRoundTrip(es: seq<PotionEffect>, tail: seq<byte>)
    requires EffectsWritable(es)
    ensures GetEffects(|es|, PutEffects(es) + tail) == Some((es, tail))
    decreases es
  {
    hide GetEffect, PutEffect, ByteStreams.Writable;
    if es == [] {
      assert PutEffects(es) + tail == tail;
    } else {
      var rest := PutEffects(es[1..]) + tail;
      assert PutEffects(es) + tail == PutEffect(es[0]) + rest;
      EffectRoundTrip(es[0], rest);
      EffectsRoundTrip(es[1..], tail);
      assert [es[0]] + es[1..] == es;
    }
  }

  // ---- the profile ------------------------------------------------------------

  const VERSION: int32 := 1

  /** Serialization throws if a name is too long for writeUTF. */
  predicate Encodable(p: Profile) {
    Writable(p.gameMode) && EffectsWritable(p.effects)
  }

  function Encode(p: Profile): (r: seq<byte>)
    requires Fits(p)
  {
    PutInt(VERSION) + (PutItems(p.contents) + (PutItems(p.armor) + (PutItems([p.offhand]) + (PutItems(p.enderChest)
    + (PutVitals(p.vitals) + (PutUTF(p.gameMode) + (PutInt(|p.effects|) + PutEffects(p.effects))))))))
  }

  datatype Inventories = Inventories(contents: seq<Item>, armor: seq<Item>, offhand: seq<Item>, enderChest: seq<Item>)

  function GetInventories(s: seq<byte>): (r: Parse<Inventories>) {
    var a := GetItems(s);
    if a.None? then None else
    var b := GetItems(a.value.1);
    if b.None? then None else
    var c := GetItems(b.value.1);
    if c.None? then None else
    var d := GetItems(c.value.1);
    if d.None? then None else
    Some((Inventories(a.value.0, b.value.0, c.value.0, d.value.0), d.value.1))
  }

  datatype Decoded = Mismatch | Failed | Decoded(image: Image, rest: seq<byte>)

  function Decode(s: seq<byte>): (r: Decoded) {
    var v := GetInt(s);
    if v.None? then Failed else
    if v.value.0 != VERSION then Mismatch else
    var a := GetInventories(v.value.1);
    if a.None? then Failed else
    var e := GetVitals(a.value.1);
    if e.None? then Failed else
    var g := GetUTF(e.value.1);
    if g.None? then Failed else
    var n := GetInt(g.value.1);
    if n.None? then Failed else
    var f := if n.value.0 <= 0 then Some(([], n.value.1)) else GetEffects(n.value.0, n.value.1);
    if f.None? then Failed else
    var i := a.value.0;
    Decoded(Image(i.contents, i.armor, i.offhand, i.enderChest, e.value.0, g.value.0, f.value.0), f.value.1)
  }

  /** Whatever follows it on the stream, an encoded profile is read back field by field, and
      exactly its own bytes are consumed. Air and null both come back as an empty slot. */
  lemma ProfileRoundTrip(p: Profile, tail: seq<byte>)
    requires Fits(p) && Encodable(p)
    ensures Decode(Encode(p) + tail) == Decoded(ImageOf(p), tail)
  {
    hide ByteStreams.GetInt, ByteStreams.PutInt, ByteStreams.GetUTF, ByteStreams.PutUTF;
    hide GetItems, PutItems, GetVitals, PutVitals, GetEffects, PutEffects;
    var t7 := PutEffects(p.effects) + tail;
    var t6 := PutInt(|p.effects|) + t7;
    var t5 := PutUTF(p.gameMode) + t6;
    var t4 := PutVitals(p.vitals) + t5;
    var t3 := PutItems(p.enderChest) + t4;
    var t2 := PutItems([p.offhand]) + t3;
    var t1 := PutItems(p.armor) + t2;
    var t0 := PutItems(p.contents) + t1;
    assert Encode(p) + tail == PutInt(VERSION) + t0;
    IntRoundTrip(VERSION, t0);
    ItemsRoundTrip(p.contents, t1);
    ItemsRoundTrip(p.armor, t2);
    ItemsRoundTrip([p.offhand], t3);
    ItemsRoundTrip(p.enderChest, t4);
    VitalsRoundTrip(p.vitals, t5);
    UTFRoundTrip(p.gameMode, t6);
    IntRoundTrip(|p.effects|, t7);
    EffectsRoundTrip(p.effects, tail);
    if p.effects == [] {
      assert PutEffects(p.effects) + tail == tail by { EmptyEffects(tail); }
    }
  }

  // ---- the layout -----------------------------------------------------------------

  /** An item slot: a zero byte if it is empty; otherwise a one, the length and the bytes. */
  lemma SlotLayout(s: Slot)
    requires s.Stack? ==> |s.bytes| < MAX_LENGTH
    ensures !s.Stack? ==> PutSlot(s) == [0]
    ensures s.Stack? ==>
              var b := PutSlot(s);
              && |b| == 5 + |s.bytes| && b[0] == 1 && b[1..5] == BigEndian(4, |s.bytes|) && b[5..] == s.bytes
  {
  }

  /** The nine numbers, by their offsets. */
  lemma VitalsLayout(v: Vitals)
    ensures var b := PutVitals(v);
            && |b| == 44
            && b[0..8] == BigEndian(8, v.health) && b[8..16] == BigEndian(8, v.absorption)
            && b[16..20] == PutInt(v.foodLevel) && b[20..24] == BigEndian(4, v.saturation)
            && b[24..28] == BigEndian(4, v.exhaustion) && b[28..32] == PutInt(v.fireTicks)
            && b[32..36] == PutInt(v.level) && b[36..40] == BigEndian(4, v.exp)
            && b[40..44] == PutInt(v.totalExperience)
  {
  }

  /** An effect: its name, two numbers and three flags. */
  lemma EffectLayout(e: PotionEffect)
    ensures var b, n := PutEffect(e), |PutUTF(e.name)|;
            && |b| == n + 11 && b[..n] == PutUTF(e.name)
            && b[n..n + 4] == PutInt(e.amplifier) && b[n + 4..n + 8] == PutInt(e.duration)
            && (b[n + 8] == if e.ambient then 1 else 0) && (b[n + 9] == if e.particles then 1 else 0)
            && (b[n + 10] == if e.icon then 1 else 0)
  {
    hide ByteStreams.PutInt, ByteStreams.PutUTF;
  }

  /** The whole: version 1, then the four item arrays, each after its length, the numbers, the
      game mode, and the effects after theirs, in this order. */
  lemma ProfileLayout(p: Profile)
    requires Fits(p)
    ensures Encode(p) ==
            [0, 0, 0, 1] + (BigEndian(4, |p.contents|) + (PutSlots(p.contents)
            + (BigEndian(4, |p.armor|) + (PutSlots(p.armor)
            + ([0, 0, 0, 1] + (PutSlot(p.offhand)
            + (BigEndian(4, |p.enderChest|) + (PutSlots(p.enderChest)
            + (PutVitals(p.vitals) + (PutUTF(p.gameMode) + (BigEndian(4, |p.effects|) + PutEffects(p.effects))))))))))))
  {
    var t := PutVitals(p.vitals) + (PutUTF(p.gameMode) + (PutInt(|p.effects|) + PutEffects(p.effects)));
    OneAsInt();
    assert PutSlots([p.offhand]) == PutSlot(p.offhand) by {
      assert [p.offhand][1..] == [];
      assert PutSlot(p.offhand) + [] == PutSlot(p.offhand);
    }
    hide PutSlots, PutSlot, PutVitals, PutEffects, ByteStreams.PutUTF, ByteStreams.BigEndian;
    ItemsThen(p.enderChest, t);
    ItemsThen([p.offhand], PutItems(p.enderChest) + t);
    ItemsThen(p.armor, PutItems([p.offhand]) + (PutItems(p.enderChest) + t));
    ItemsThen(p.contents, PutItems(p.armor) + (PutItems([p.offhand]) + (PutItems(p.enderChest) + t)));
    hide PutItems;
  }

  lemma OneAsInt()
    ensures PutInt(1) == [0, 0, 0, 1] == BigEndian(4, 1)
  {
    assert BigEndian(1, 0) == [0];
    assert BigEndian(2, 0) == [0, 0];
    assert BigEndian(3, 0) == [0, 0, 0];
  }

  lemma ItemsThen(slots: seq<Slot>, rest: seq<byte>)
    requires SlotsFit(slots)
    ensures PutItems(slots) + rest == BigEndian(4, |slots|) + (PutSlots(slots) + rest)
  {
    hide PutSlots, ByteStreams.BigEndian;
  }

  // ---- truncated profiles -----------------------------------------------------------

  lemma SlotExtends(s: seq<byte>, more: seq<byte>)
    ensures Extends(GetSlot(s), GetSlot(s + more), more)
  {
    hide ByteStreams.GetInt, ByteStreams.GetBool, ByteStreams.GetBytes;
    BoolExtends(s, more);
    if GetBool(s).Some? {
      var (present, rest) := GetBool(s).value;
      IntExtends(rest, more);
      if present && GetInt(rest).Some? && GetInt(rest).value.0 >= 0 {
        BytesExtend(GetInt(rest).value.0, GetInt(rest).value.1, more);
      }
    }
  }

  lemma {:induction false} SlotsExtend(n: nat, s: seq<byte>, more: seq<byte>)
    ensures Extends(GetSlots(n, s), GetSlots(n, s + more), more)
    decreases n
  {
    hide GetSlot;
    if n > 0 {
      SlotExtends(s, more);
      if GetSlot(s).Some? {
        SlotsExtend(n - 1, GetSlot(s).value.1, more);
      }
    }
  }

  lemma ItemsExtend(s: seq<byte>, more: seq<byte>)
    ensures Extends(GetItems(s), GetItems(s + more), more)
  {
    hide ByteStreams.GetInt, GetSlots;
    IntExtends(s, more);
    if GetInt(s).Some? && GetInt(s).value.0 >= 0 {
      SlotsExtend(GetInt(s).value.0, GetInt(s).value.1, more);
    }
  }

  lemma InventoriesExtend(s: seq<byte>, more: seq<byte>)
    ensures Extends(GetInventories(s), GetInventories(s + more), more)
  {
    hide GetItems;
    var a := GetItems(s);
    ItemsExtend(s, more);
    if a.None? { return; }
    var b := GetItems(a.value.1);
    ItemsExtend(a.value.1, more);
    if b.None? { return; }
    var c := GetItems(b.value.1);
    ItemsExtend(b.value.1, more);
    if c.None? { return; }
    ItemsExtend(c.value.1, more);
  }

  lemma VitalsExtend(s: seq<byte>, more: seq<byte>)
    ensures Extends(GetVitals(s), GetVitals(s + more), more)
  {
    hide ByteStreams.GetInt, ByteStreams.GetFloat, ByteStreams.GetDouble;
    DoubleExtends(s, more);
    var a := GetDouble(s);
    if a.None? { return; }
    DoubleExtends(a.value.1, more);
    var b := GetDouble(a.value.1);
    if b.None? { return; }
    IntExtends(b.value.1, more);
    var c := GetInt(b.value.1);
    if c.None? { return; }
    FloatExtends(c.value.1, more);
    var d := GetFloat(c.value.1);
    if d.None? { return; }
    FloatExtends(d.value.1, more);
    var e := GetFloat(d.value.1);
    if e.None? { return; }
    IntExtends(e.value.1, more);
    var f := GetInt(e.value.1);
    if f.None? { return; }
    IntExtends(f.value.1, more);
    var g := GetInt(f.value.1);
    if g.None? { return; }
    FloatExtends(g.value.1, more);
    var h := GetFloat(g.value.1);
    if h.None? { return; }
    IntExtends(h.value.1, more);
  }

  lemma EffectExtends(s: seq<byte>, more: seq<byte>)
    ensures Extends(GetEffect(s), GetEffect(s + more), more)
  {
    hide ByteStreams.GetInt, ByteStreams.GetUTF, ByteStreams.GetBool;
    UTFExtends(s, more);
    var a := GetUTF(s);
    if a.None? { return; }
    IntExtends(a.value.1, more);
    var b := GetInt(a.value.1);
    if b.None? { return; }
    IntExtends(b.value.1, more);
    var c := GetInt(b.value.1);
    if c.None? { return; }
    BoolExtends(c.value.1, more);
    var d := GetBool(c.value.1);
    if d.None? { return; }
    BoolExtends(d.value.1, more);
    var e := GetBool(d.value.1);
    if e.None? { return; }
    BoolExtends(e.value.1, more);
  }

  lemma {:induction false} EffectsExtend(n: nat, s: seq<byte>, more: seq<byte>)
    ensures Extends(GetEffects(n, s), GetEffects(n, s + more), more)
    decreases n
  {
    hide GetEffect;
    if n > 0 {
      EffectExtends(s, more);
      if GetEffect(s).Some? {
        EffectsExtend(n - 1, GetEffect(s).value.1, more);
      }
    }
  }

  /** On a longer input the reader finds the same profile, or the same wrong version. */
  lemma DecodeExtends(s: seq<byte>, more: seq<byte>)
    ensures match Decode(s)
            case Failed => true
            case Mismatch => Decode(s + more) == Mismatch
            case Decoded(i, rest) => Decode(s + more) == Decoded(i, rest + more)
  {
    hide ByteStreams.GetInt, ByteStreams.GetUTF, GetInventories, GetVitals, GetEffects;
    IntExtends(s, more);
    var v := GetInt(s);
    if v.None? || v.value.0 != VERSION { return; }
    InventoriesExtend(v.value.1, more);
    var a := GetInventories(v.value.1);
    if a.None? { return; }
    VitalsExtend(a.value.1, more);
    var e := GetVitals(a.value.1);
    if e.None? { return; }
    UTFExtends(e.value.1, more);
    var g := GetUTF(e.value.1);
    if g.None? { return; }
    IntExtends(g.value.1, more);
    var n := GetInt(g.value.1);
    if n.None? || n.value.0 <= 0 { return; }
    EffectsExtend(n.value.0, n.value.1, more);
  }

  /** A profile that has lost any of its bytes at the end never passes for one: the reader
      throws. */
  lemma TruncatedFails(p: Profile, n: nat)
    requires Fits(p) && Encodable(p) && n < |Encode(p)|
    ensures Decode(Encode(p)[..n]) == Failed
  {
    hide Encode, Decode, Fits, Encodable;
    var s, more := Encode(p)[..n], Encode(p)[n..];
    assert s + more == Encode(p) + [];
    ProfileRoundTrip(p, []);
    DecodeExtends(s, more);
  }

  /** Another version is told apart, whatever follows; fewer than four bytes are no version. */
  lemma VersionExactly(v: int32, tail: seq<byte>)
    ensures v != 1 ==> Decode(PutInt(v) + tail) == Mismatch
    ensures v == 1 ==> Decode(PutInt(v) + tail) != Mismatch
    ensures forall s: seq<byte> | |s| < 4 :: Decode(s) == Failed
  {
    IntRoundTrip(v, tail);
    hide GetInventories, GetVitals, GetEffects, ByteStreams.GetUTF, ByteStreams.PutInt;
  }

  lemma EmptyEffects(tail: seq<byte>)
    ensures PutEffects([]) + tail == tail
  {
  }
}
