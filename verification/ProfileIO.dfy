/** The serializer and deserializer as they run, over streams and a player object
    (bridge/paper/src/main/kotlin/net/aethernet/cloud/NbtSerializer.kt). */
module ProfileIO {
  import opened Types
  import opened ByteStreams
  import opened ProfileCodec
  import opened Selection

  method SerializeItemArray(out: DataOutput, items: seq<Slot>)
    requires SlotsFit(items)
    modifies out
    ensures out.bytes == old(out.bytes) + PutItems(items)
  {
    hide ByteStreams.PutInt, PutSlot;
    out.Write(PutInt(|items|));
    for i := 0 to |items|
      invariant out.bytes + PutSlots(items[i..]) == old(out.bytes) + PutItems(items)
    {
      ghost var was, rest := out.bytes, PutSlots(items[i + 1..]);
      assert items[i..][1..] == items[i + 1..];
      WriteSlot(out, items[i]);
      assert was + (PutSlot(items[i]) + rest) == out.bytes + rest;
    }
    assert items[|items|..] == [];
  }

  method WriteSlot(out: DataOutput, item: Slot)
    requires item.Stack? ==> |item.bytes| < MAX_LENGTH
    modifies out
    ensures out.bytes == old(out.bytes) + PutSlot(item)
  {
    if item.Null? || item.Air? {
      out.Write(PutBool(false));
    } else {
      out.Write(PutBool(true));
      out.Write(PutInt(|item.bytes|));
      out.Write(item.bytes);
    }
  }

  method WriteEffect(out: DataOutput, e: PotionEffect) returns (ok: bool)
    modifies out
    ensures ok == Writable(e.name)
    ensures ok ==> out.bytes == old(out.bytes) + PutEffect(e)
  {
    hide ByteStreams.PutInt, ByteStreams.PutUTF, ByteStreams.PutBool, ByteStreams.Writable;
    ok := out.WriteUTF(e.name);
    if ok {
      out.Write(PutInt(e.amplifier));
      out.Write(PutInt(e.duration));
      out.Write(PutBool(e.ambient));
      out.Write(PutBool(e.particles));
      out.Write(PutBool(e.icon));
    }
  }

  method WriteVitals(out: DataOutput, v: Vitals)
    modifies out
    ensures out.bytes == old(out.bytes) + PutVitals(v)
  {
    hide ByteStreams.PutInt, ByteStreams.PutFloat, ByteStreams.PutDouble;
    out.Write(PutDouble(v.health));
    out.Write(PutDouble(v.absorption));
    out.Write(PutInt(v.foodLevel));
    out.Write(PutFloat(v.saturation));
    out.Write(PutFloat(v.exhaustion));
    out.Write(PutInt(v.fireTicks));
    out.Write(PutInt(v.level));
    out.Write(PutFloat(v.exp));
    out.Write(PutInt(v.totalExperience));
  }

  method WriteEffects(out: DataOutput, effects: seq<PotionEffect>) returns (ok: bool)
    requires |effects| < MAX_LENGTH
    modifies out
    ensures ok == EffectsWritable(effects)
    ensures ok ==> out.bytes == old(out.bytes) + (PutInt(|effects|) + PutEffects(effects))
  {
    hide ByteStreams.PutInt, PutEffect, ByteStreams.Writable;
    out.Write(PutInt(|effects|));
    for i := 0 to |effects|
      invariant forall j | 0 <= j < i :: Writable(effects[j].name)
      invariant out.bytes + PutEffects(effects[i..]) == old(out.bytes) + (PutInt(|effects|) + PutEffects(effects))
    {
      ghost var was, rest := out.bytes, PutEffects(effects[i + 1..]);
      assert effects[i..][1..] == effects[i + 1..];
      ok := WriteEffect(out, effects[i]);
      if !ok {
        assert effects[i] in effects;
        return;
      }
      assert was + (PutEffect(effects[i]) + rest) == out.bytes + rest;
    }
    assert effects[|effects|..] == [];
    ok := true;
  }

  /** NbtSerializer.serialize: no bytes at all if a name cannot be written. */
  method Serialize(p: Profile) returns (data: Option<seq<byte>>)
    requires Fits(p)
    ensures data == if Encodable(p) then Some(Encode(p)) else None
  {
    hide Fits, ByteStreams.Writable, EffectsWritable, ByteStreams.PutInt, PutItems, PutVitals, PutEffects;
    hide ByteStreams.PutUTF, Encode;
    assert |p.effects| < MAX_LENGTH && SlotsFit(p.contents) && SlotsFit(p.armor) && SlotsFit([p.offhand])
        && SlotsFit(p.enderChest) by { WhatFits(p); }
    hide SlotsFit;
    var out := new DataOutput();
    out.Write(PutInt(VERSION));
    WriteInventories(out, p);
    WriteVitals(out, p.vitals);
    var ok := out.WriteUTF(p.gameMode);
    if !ok {
      return None;
    }
    ok := WriteEffects(out, p.effects);
    if !ok {
      return None;
    }
    EncodeParts(p);
    return Some(out.bytes);
  }

  method WriteInventories(out: DataOutput, p: Profile)
    requires SlotsFit(p.contents) && SlotsFit(p.armor) && SlotsFit([p.offhand]) && SlotsFit(p.enderChest)
    modifies out
    ensures out.bytes == old(out.bytes) + InventoryBytes(p)
  {
    hide PutItems, SlotsFit;
    SerializeItemArray(out, p.contents);
    SerializeItemArray(out, p.armor);
    SerializeItemArray(out, [p.offhand]);
    SerializeItemArray(out, p.enderChest);
  }

  ghost function InventoryBytes(p: Profile): (r: seq<byte>)
    requires SlotsFit(p.contents) && SlotsFit(p.armor) && SlotsFit([p.offhand]) && SlotsFit(p.enderChest)
  {
    PutItems(p.contents) + (PutItems(p.armor) + (PutItems([p.offhand]) + PutItems(p.enderChest)))
  }

  lemma WhatFits(p: Profile)
    requires Fits(p)
    ensures |p.effects| < MAX_LENGTH && SlotsFit(p.contents) && SlotsFit(p.armor) && SlotsFit([p.offhand])
    ensures SlotsFit(p.enderChest)
  {
  }

  lemma EncodeParts(p: Profile)
    requires Fits(p)
    ensures Encode(p) == [] + PutInt(VERSION) + InventoryBytes(p) + PutVitals(p.vitals) + PutUTF(p.gameMode)
                         + (PutInt(|p.effects|) + PutEffects(p.effects))
  {
    hide ByteStreams.PutInt, PutItems, PutVitals, PutEffects, ByteStreams.PutUTF, SlotsFit;
    var i, v, g := InventoryBytes(p), PutVitals(p.vitals), PutUTF(p.gameMode);
    var e := PutInt(|p.effects|) + PutEffects(p.effects);
    var rest := v + (g + e);
    var d, c, b := PutItems(p.enderChest), PutItems([p.offhand]), PutItems(p.armor);
    Reassociate(c, d, rest);
    Reassociate(b, c + d, rest);
    Reassociate(PutItems(p.contents), b + (c + d), rest);
    assert Encode(p) == PutInt(VERSION) + (i + rest);
    Reassociate(PutInt(VERSION), i, rest);
    Reassociate(PutInt(VERSION) + i, v, g + e);
    Reassociate(PutInt(VERSION) + i + v, g, e);
    assert [] + PutInt(VERSION) == PutInt(VERSION);
  }

  lemma Reassociate(a: seq<byte>, b: seq<byte>, c: seq<byte>)
    ensures (a + b) + c == a + (b + c)
  {
  }

  // ---- reading ----------------------------------------------------------------

  method ReadSlot(input: DataInput) returns (r: Option<Item>)
    modifies input
    ensures Reads(GetSlot(old(input.rest)), r, input.rest)
  {
    var present := input.ReadBoolean();
    if present.None? { return None; }
    if !present.value { return Some(None); }
    var n := input.ReadInt();
    if n.None? || n.value < 0 { return None; }
    var b := input.ReadFully(n.value);
    if b.None? { return None; }
    return Some(Some(b.value));
  }

  method DeserializeItemArray(input: DataInput) returns (r: Option<seq<Item>>)
    modifies input
    ensures Reads(GetItems(old(input.rest)), r, input.rest)
  {
    hide GetSlot, ByteStreams.GetInt;
    var size := input.ReadInt();
    if size.None? || size.value < 0 { return None; }
    var n: nat := size.value;
    ghost var first := input.rest;
    var items: seq<Item> := [];
    PrependNothing(GetSlots(n, first));
    for i := 0 to n
      invariant GetSlots(n, first) == Prepend(items, GetSlots(n - i, input.rest))
    {
      ghost var before := input.rest;
      var item := ReadSlot(input);
      if item.None? {
        assert GetSlots(n - i, before) == None;
        return None;
      }
      PrependOne(items, item.value, GetSlots(n - i - 1, input.rest));
      items := items + [item.value];
    }
    assert items + [] == items;
    r := Some(items);
  }

  /** The elements read so far in front of those that are still to be read. */
  ghost function Prepend<T>(head: seq<T>, p: Parse<seq<T>>): (r: Parse<seq<T>>) {
    match p
    case None => None
    case Some((xs, tail)) => Some((head + xs, tail))
  }

  lemma PrependNothing<T>(p: Parse<seq<T>>)
    ensures Prepend([], p) == p
  {
    if p.Some? {
      assert [] + p.value.0 == p.value.0;
    }
  }

  lemma PrependOne<T>(head: seq<T>, x: T, p: Parse<seq<T>>)
    ensures Prepend(head, Prepend([x], p)) == Prepend(head + [x], p)
  {
    if p.Some? {
      assert head + ([x] + p.value.0) == head + [x] + p.value.0;
    }
  }

  method ReadVitals(input: DataInput) returns (r: Option<Vitals>)
    modifies input
    ensures Reads(GetVitals(old(input.rest)), r, input.rest)
  {
    hide ByteStreams.GetInt, ByteStreams.GetFloat, ByteStreams.GetDouble;
    var a := input.ReadDouble();
    if a.None? { return None; }
    var b := input.ReadDouble();
    if b.None? { return None; }
    var c := input.ReadInt();
    if c.None? { return None; }
    var d := input.ReadFloat();
    if d.None? { return None; }
    var e := input.ReadFloat();
    if e.None? { return None; }
    var f := input.ReadInt();
    if f.None? { return None; }
    var g := input.ReadInt();
    if g.None? { return None; }
    var h := input.ReadFloat();
    if h.None? { return None; }
    var i := input.ReadInt();
    if i.None? { return None; }
    return Some(Vitals(a.value, b.value, c.value, d.value, e.value, f.value, g.value, h.value, i.value));
  }

  method ReadEffect(input: DataInput) returns (r: Option<PotionEffect>)
    modifies input
    ensures Reads(GetEffect(old(input.rest)), r, input.rest)
  {
    hide ByteStreams.GetInt, ByteStreams.GetUTF, ByteStreams.GetBool;
    var a := input.ReadUTF();
    if a.None? { return None; }
    var b := input.ReadInt();
    if b.None? { return None; }
    var c := input.ReadInt();
    if c.None? { return None; }
    var d := input.ReadBoolean();
    if d.None? { return None; }
    var e := input.ReadBoolean();
    if e.None? { return None; }
    var f := input.ReadBoolean();
    if f.None? { return None; }
    return Some(PotionEffect(a.value, b.value, c.value, d.value, e.value, f.value));
  }

  /** The effects whose type the server knows. */
  function KnownOnly(known: seq<char16> -> bool, es: seq<PotionEffect>): (r: seq<PotionEffect>) {
    if es == [] then []
    else
      var n := |es| - 1;
      KnownOnly(known, es[..n]) + if known(es[n].name) then [es[n]] else []
  }

  function KnownMarks(known: seq<char16> -> bool, es: seq<PotionEffect>): (r: seq<bool>) {
    seq(|es|, k requires 0 <= k < |es| => known(es[k].name))
  }

  /** Exactly the effects with an unknown name are left out; the others stay in their order. */
  lemma {:induction false} KnownOnlyExactly(known: seq<char16> -> bool, es: seq<PotionEffect>) returns (at: seq<nat>)
    ensures Selects(KnownOnly(known, es), es, at, KnownMarks(known, es))
    decreases |es|
  {
    at := [];
    if es != [] {
      var n := |es| - 1;
      at := KnownOnlyExactly(known, es[..n]);
      SnocSelects(known(es[n].name), es[n], KnownOnly(known, es[..n]), es[..n], at, KnownMarks(known, es[..n]));
      at := at + if known(es[n].name) then [n] else [];
      hide Selects;
      assert es[..n] + [es[n]] == es;
      assert KnownMarks(known, es[..n]) + [known(es[n].name)] == KnownMarks(known, es);
    }
  }

  /** An unknown effect is skipped after all of it has been read. */
  method ReadEffects(input: DataInput, known: seq<char16> -> bool) returns (ok: bool, effects: seq<PotionEffect>)
    modifies input
    ensures var n := GetInt(old(input.rest));
            if n.None? then !ok
            else
              var f := if n.value.0 <= 0 then Some(([], n.value.1)) else GetEffects(n.value.0, n.value.1);
              if f.None? then !ok
              else ok && effects == KnownOnly(known, f.value.0) && input.rest == f.value.1
  {
    hide GetEffect, ByteStreams.GetInt;
    ok, effects := false, [];
    var count := input.ReadInt();
    if count.None? { return; }
    var n: nat := if count.value < 0 then 0 else count.value;
    ghost var first := input.rest;
    ghost var all: seq<PotionEffect> := [];
    PrependNothing(GetEffects(n, first));
    for i := 0 to n
      invariant GetEffects(n, first) == Prepend(all, GetEffects(n - i, input.rest))
      invariant effects == KnownOnly(known, all)
    {
      ghost var before := input.rest;
      var e := ReadEffect(input);
      if e.None? {
        assert GetEffects(n - i, before) == None;
        return;
      }
      PrependOne(all, e.value, GetEffects(n - i - 1, input.rest));
      assert (all + [e.value])[..|all|] == all;
      all := all + [e.value];
      if known(e.value.name) {
        effects := effects + [e.value];
      }
    }
    assert all + [] == all;
    ok := true;
  }

  datatype PlayerState = PlayerState(
    contents: seq<Item>, armor: seq<Item>, offhand: Item, enderChest: seq<Item>,
    vitals: Vitals, gameMode: seq<char16>, effects: seq<PotionEffect>)

  /** The first slots of the chest are replaced; the chest keeps its size. */
  function Overlay(chest: seq<Item>, items: seq<Item>): (r: seq<Item>)
    ensures |r| == |chest|
  {
    if |items| <= |chest| then items + chest[|items|..] else items[..|chest|]
  }

  datatype Result = Applied | VersionMismatch | Malformed

  class Player {
    var contents: seq<Item>
    var armor: seq<Item>
    var offhand: Item
    var enderChest: seq<Item>
    var vitals: Vitals
    var gameMode: seq<char16>
    var effects: seq<PotionEffect>
    const maxHealth: bits64
    /** coerceIn(0.0, maxHealth) on doubles, and the names this server knows. */
    const coerce: (bits64, bits64) -> bits64
    const knownMode: seq<char16> -> bool
    const knownEffect: seq<char16> -> bool

    constructor (
      s: PlayerState, maxHealth: bits64, coerce: (bits64, bits64) -> bits64,
      knownMode: seq<char16> -> bool, knownEffect: seq<char16> -> bool)
      ensures State() == s
      ensures this.maxHealth == maxHealth && this.coerce == coerce
      ensures this.knownMode == knownMode && this.knownEffect == knownEffect
    {
      contents, armor, offhand, enderChest := s.contents, s.armor, s.offhand, s.enderChest;
      vitals, gameMode, effects := s.vitals, s.gameMode, s.effects;
      this.maxHealth, this.coerce, this.knownMode, this.knownEffect := maxHealth, coerce, knownMode, knownEffect;
    }

    ghost function State(): (s: PlayerState)
      reads this
    {
      PlayerState(contents, armor, offhand, enderChest, vitals, gameMode, effects)
    }

    /** What a player looks like after an image has been applied. */
    ghost function With(s: PlayerState, i: Image): (r: PlayerState) {
      PlayerState(
        i.contents,
        i.armor,
        if i.offhand != [] && i.offhand[0].Some? then i.offhand[0] else s.offhand,
        Overlay(s.enderChest, i.enderChest),
        i.vitals.(health := coerce(i.vitals.health, maxHealth)),
        if knownMode(i.gameMode) then i.gameMode else s.gameMode,
        KnownOnly(knownEffect, i.effects))
    }

    /** NbtSerializer.deserialize. A malformed stream throws half way, with the fields read so
        far already assigned. */
    method Deserialize(data: seq<byte>) returns (result: Result)
      modifies this
      ensures match Decode(data)
              case Mismatch => result == VersionMismatch && State() == old(State())
              case Failed => result == Malformed
              case Decoded(i, _) => result == Applied && State() == With(old(State()), i)
    {
      hide ByteStreams.GetInt, ByteStreams.GetUTF, GetInventories, GetVitals, GetEffects, KnownOnly, Overlay;
      var input := new DataInput(data);
      var version := input.ReadInt();
      if version.None? { return Malformed; }
      if version.value != VERSION { return VersionMismatch; }
      var ok := ReadInventories(input);
      if !ok { return Malformed; }
      var e := ReadVitals(input);
      if e.None? { return Malformed; }
      vitals := e.value.(health := coerce(e.value.health, maxHealth));
      var g := input.ReadUTF();
      if g.None? { return Malformed; }
      if knownMode(g.value) {
        gameMode := g.value;
      }
      effects := [];
      var known;
      ok, known := ReadEffects(input, knownEffect);
      if !ok { return Malformed; }
      effects := known;
      return Applied;
    }

    /** The four item arrays, each applied as soon as it has been read. */
    method ReadInventories(input: DataInput) returns (ok: bool)
      modifies input, this
      ensures match GetInventories(old(input.rest))
              case None => !ok
              case Some((i, tail)) =>
                ok && input.rest == tail
                && State() == old(State()).(
                     contents := i.contents,
                     armor := i.armor,
                     offhand := if i.offhand != [] && i.offhand[0].Some? then i.offhand[0] else old(offhand),
                     enderChest := Overlay(old(enderChest), i.enderChest))
    {
      hide GetItems, Overlay;
      var a := DeserializeItemArray(input);
      if a.None? { return false; }
      contents := a.value;
      var b := DeserializeItemArray(input);
      if b.None? { return false; }
      armor := b.value;
      var c := DeserializeItemArray(input);
      if c.None? { return false; }
      if c.value != [] && c.value[0].Some? {
        offhand := c.value[0];
      }
      var d := DeserializeItemArray(input);
      if d.None? { return false; }
      SetEnderChest(d.value);
      return true;
    }

    method SetEnderChest(items: seq<Item>)
      modifies `enderChest
      ensures enderChest == Overlay(old(enderChest), items)
    {
      for i := 0 to |items|
        invariant |enderChest| == |old(enderChest)|
        invariant forall j | 0 <= j < |enderChest| :: enderChest[j] == if j < i then items[j] else old(enderChest)[j]
      {
        if i < |enderChest| {
          enderChest := enderChest[i := items[i]];
        }
      }
    }
  }

  /** An item stack arrives as its bytes; null and air as an empty slot. */
  ghost predicate SameSlot(s: Slot, item: Item) {
    match s
    case Stack(bytes) => item == Some(bytes)
    case Null => item == None
    case Air => item == None
  }

  ghost predicate Arrived(slots: seq<Slot>, items: seq<Item>) {
    |items| == |slots| && forall i | 0 <= i < |slots| :: SameSlot(slots[i], items[i])
  }

  /** A profile carried from one server to another. What arrives is what was sent, with air slots
      emptied, except that slots of the ender chest beyond those sent keep their items, health
      is capped, and a game mode or effects the receiver does not know are left out. */
  method Transfer(p: Profile, target: Player) returns (result: Result)
    requires Fits(p) && Encodable(p)
    modifies target
    ensures result == Applied
    ensures Arrived(p.contents, target.contents) && Arrived(p.armor, target.armor)
    ensures p.offhand.Stack? ==> target.offhand == Some(p.offhand.bytes)
    ensures |target.enderChest| == |old(target.enderChest)|
    ensures forall j | 0 <= j < |target.enderChest| ::
              if j < |p.enderChest| then SameSlot(p.enderChest[j], target.enderChest[j])
              else target.enderChest[j] == old(target.enderChest)[j]
    ensures target.vitals == p.vitals.(health := target.coerce(p.vitals.health, target.maxHealth))
    ensures target.gameMode == if target.knownMode(p.gameMode) then p.gameMode else old(target.gameMode)
    ensures target.effects == KnownOnly(target.knownEffect, p.effects)
  {
    hide Encode, Decode, KnownOnly, Fits, Encodable;
    var data := Serialize(p);
    assert Encode(p) == Encode(p) + [];
    ProfileRoundTrip(p, []);
    result := target.Deserialize(data.value);
  }
}
