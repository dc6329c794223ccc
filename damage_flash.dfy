/** Damage flash: every damageable ship publishes the time since it was last
    damaged to its material, which the shader uses to flash the ship, and that
    timer then runs on by one tick. Materials are shared assets, so two ships
    with the same material both write it, the later one in iteration order
    winning. */
module DamageFlash {
  import opened Ecs

  /** A handle to a ship material asset. */
  type MaterialId = nat

  /** The materials after the ships in `order` have written their timers, each
      the value it held before this call's increment. A handle to a missing
      material writes nothing. */
  function FlashAll(order: seq<EntityId>, materials: map<MaterialId, real>, timers: map<EntityId, real>,
                    handles: map<EntityId, MaterialId>): (materials': map<MaterialId, real>)
    requires forall e :: e in order ==> e in timers && e in handles
    ensures materials'.Keys == materials.Keys
    decreases |order|
  {
    if order == [] then materials
    else
      var before := FlashAll(order[..|order| - 1], materials, timers, handles);
      var e := order[|order| - 1];
      if handles[e] in before then before[handles[e] := timers[e]] else before
  }

  /** `update_damage_flashes` over the ships with a damage timer and a material
      handle, visited in `order`: the material receives the timer, then the timer
      advances by `dt`. */
  method UpdateDamageFlashes(order: seq<EntityId>, dt: real, timers: map<EntityId, real>,
                             handles: map<EntityId, MaterialId>, materials: map<MaterialId, real>)
    returns (timers': map<EntityId, real>, materials': map<MaterialId, real>)
    requires IsOrderOf(order, timers.Keys * handles.Keys)
    ensures timers'.Keys == timers.Keys
    ensures forall e :: e in timers ==> timers'[e] == if e in handles then timers[e] + dt else timers[e]
    ensures materials' == FlashAll(order, materials, timers, handles)
  {
    timers', materials' := timers, materials;
    assert forall e :: e in order ==> e in timers && e in handles;
    var i := 0;
    while i < |order|
      invariant 0 <= i <= |order|
      invariant timers'.Keys == timers.Keys
      invariant forall e :: e in timers ==> timers'[e] == if e in order[..i] then timers[e] + dt else timers[e]
      invariant materials' == FlashAll(order[..i], materials, timers, handles)
    {
      assert order[..i + 1][..i] == order[..i];
      var e := order[i];
      assert e in order;
      assert e !in order[..i];
      if handles[e] in materials' {
        materials' := materials'[handles[e] := timers'[e]];
      }
      timers' := timers'[e := timers'[e] + dt];
      i := i + 1;
    }
    assert order[..|order|] == order;
  }

  /** A material no ship in `order` refers to keeps its value. */
  lemma {:induction false} UnreferencedMaterialKept(order: seq<EntityId>, materials: map<MaterialId, real>,
                                                    timers: map<EntityId, real>, handles: map<EntityId, MaterialId>,
                                                    h: MaterialId)
    requires forall e :: e in order ==> e in timers && e in handles
    requires h in materials && forall e :: e in order ==> handles[e] != h
    ensures FlashAll(order, materials, timers, handles)[h] == materials[h]
    decreases |order|
  {
    if order != [] {
      UnreferencedMaterialKept(order[..|order| - 1], materials, timers, handles, h);
    }
  }

  /** A material shows the timer of the last ship in `order` that refers to it. */
  lemma {:induction false} LastWriterWins(order: seq<EntityId>, materials: map<MaterialId, real>,
                                          timers: map<EntityId, real>, handles: map<EntityId, MaterialId>, i: nat)
    requires forall e :: e in order ==> e in timers && e in handles
    requires i < |order| && handles[order[i]] in materials
    requires forall j :: i < j < |order| ==> handles[order[j]] != handles[order[i]]
    ensures FlashAll(order, materials, timers, handles)[handles[order[i]]] == timers[order[i]]
    decreases |order|
  {
    var prefix := order[..|order| - 1];
    if i < |order| - 1 {
      assert prefix[i] == order[i];
      assert forall j :: i < j < |prefix| ==> prefix[j] == order[j];
      LastWriterWins(prefix, materials, timers, handles, i);
    }
  }

  /** With one material per ship, the order does not matter: every material shows
      the timer of the ship that refers to it. */
  lemma UniqueMaterialsShowOwnTimer(order: seq<EntityId>, materials: map<MaterialId, real>,
                                    timers: map<EntityId, real>, handles: map<EntityId, MaterialId>, i: nat)
    requires forall e :: e in order ==> e in timers && e in handles
    requires forall j, k :: 0 <= j < k < |order| ==> handles[order[j]] != handles[order[k]]
    requires i < |order| && handles[order[i]] in materials
    ensures FlashAll(order, materials, timers, handles)[handles[order[i]]] == timers[order[i]]
  {
    LastWriterWins(order, materials, timers, handles, i);
  }
}
