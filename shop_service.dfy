/** The in-memory shop, stylist and service tables of
    src/features/hairSalon/services/hairShopService.ts. Every lookup that a
    customer sees hides inactive rows; deletes are soft (`isActive = false`);
    updates spread the supplied fields over the stored row. Fresh ids and the
    current ISO time string are parameters. */
module ShopService {
  import opened Collections
  import opened Types

  // ---- the data the create and update calls take ----

  /** `CreateHairShopData`; absent optional fields are `None`. */
  datatype NewShop = NewShop(
    name: string,
    address: string,
    phone: string,
    description: Option<string>,
    slotIntervalMinutes: Option<int>,
    operatingHours: seq<OperatingHours>,
    imageUrl: Option<string>)

  /** `UpdateHairShopData`: every field optional; `None` means the key is not supplied. */
  datatype ShopPatch = ShopPatch(
    name: Option<string>,
    address: Option<string>,
    phone: Option<string>,
    description: Option<string>,
    slotIntervalMinutes: Option<int>,
    operatingHours: Option<seq<OperatingHours>>,
    imageUrl: Option<string>,
    isActive: Option<bool>)

  /** `CreateStylistData`. */
  datatype NewStylist = NewStylist(
    shopId: string,
    name: string,
    title: string,
    profileImage: Option<string>,
    introduction: Option<string>)

  /** `UpdateStylistData`: everything but the shop. */
  datatype StylistPatch = StylistPatch(
    name: Option<string>,
    title: Option<string>,
    profileImage: Option<string>,
    introduction: Option<string>,
    isActive: Option<bool>)

  /** `CreateHairServiceData`. */
  datatype NewService = NewService(
    shopId: string,
    name: string,
    description: Option<string>,
    durationMinutes: nat,
    price: int,
    category: string)

  /** `UpdateHairServiceData`: everything but the shop. */
  datatype ServicePatch = ServicePatch(
    name: Option<string>,
    description: Option<string>,
    durationMinutes: Option<nat>,
    price: Option<int>,
    category: Option<string>,
    isActive: Option<bool>)

  // ---- building and merging rows ----

  /** A supplied value replaces the stored one, as an object spread does. */
  function Pick<T>(supplied: Option<T>, current: T): T {
    if supplied.Some? then supplied.value else current
  }

  /** A supplied value of an optional field replaces the stored one. */
  function PickOptional<T>(supplied: Option<T>, current: Option<T>): Option<T> {
    if supplied.Some? then supplied else current
  }

  /** `data.slotIntervalMinutes || 30`: an absent or zero interval is 30 minutes. */
  function IntervalOrDefault(v: Option<int>): (r: int)
    ensures v.Some? && v.value != 0 ==> r == v.value
    ensures v.None? || v.value == 0 ==> r == 30
  {
    if v.Some? && v.value != 0 then v.value else 30
  }

  /** The shop `createShop` stores. */
  function ShopOf(id: string, ownerId: string, data: NewShop, now: string): Shop {
    Shop(id, data.name, ownerId, data.address, data.phone, data.description,
         IntervalOrDefault(data.slotIntervalMinutes), data.operatingHours, OrNull(data.imageUrl),
         true, now, None)
  }

  /** `{ ...shop, ...data, updatedAt }`. */
  function MergeShop(s: Shop, p: ShopPatch, now: string): (r: Shop)
    ensures r.id == s.id && r.ownerId == s.ownerId && r.createdAt == s.createdAt
    ensures r.updatedAt == Some(now)
  {
    s.(name := Pick(p.name, s.name),
       address := Pick(p.address, s.address),
       phone := Pick(p.phone, s.phone),
       description := PickOptional(p.description, s.description),
       slotIntervalMinutes := Pick(p.slotIntervalMinutes, s.slotIntervalMinutes),
       operatingHours := Pick(p.operatingHours, s.operatingHours),
       imageUrl := PickOptional(p.imageUrl, s.imageUrl),
       isActive := Pick(p.isActive, s.isActive),
       updatedAt := Some(now))
  }

  /** The stylist `createStylist` stores. */
  function StylistOf(id: string, data: NewStylist, now: string): Stylist {
    Stylist(id, data.shopId, data.name, data.title, OrNull(data.profileImage), data.introduction, true, now)
  }

  /** `{ ...stylist, ...data }`. */
  function MergeStylist(s: Stylist, p: StylistPatch): (r: Stylist)
    ensures r.id == s.id && r.shopId == s.shopId && r.createdAt == s.createdAt
  {
    s.(name := Pick(p.name, s.name),
       title := Pick(p.title, s.title),
       profileImage := PickOptional(p.profileImage, s.profileImage),
       introduction := PickOptional(p.introduction, s.introduction),
       isActive := Pick(p.isActive, s.isActive))
  }

  /** The service `createService` stores. */
  function ServiceOf(id: string, data: NewService, now: string): Service {
    Service(id, data.shopId, data.name, data.description, data.durationMinutes, data.price,
            data.category, true, now)
  }

  /** `{ ...service, ...data }`. */
  function MergeService(s: Service, p: ServicePatch): (r: Service)
    ensures r.id == s.id && r.shopId == s.shopId && r.createdAt == s.createdAt
  {
    s.(name := Pick(p.name, s.name),
       description := PickOptional(p.description, s.description),
       durationMinutes := Pick(p.durationMinutes, s.durationMinutes),
       price := Pick(p.price, s.price),
       category := Pick(p.category, s.category),
       isActive := Pick(p.isActive, s.isActive))
  }

  const NoShopChange := ShopPatch(None, None, None, None, None, None, None, None)
  const NoStylistChange := StylistPatch(None, None, None, None, None)
  const NoServiceChange := ServicePatch(None, None, None, None, None, None)

  /** An update with no fields supplied only stamps `updatedAt`. */
  lemma MergeShopNothing(s: Shop, now: string)
    ensures MergeShop(s, NoShopChange, now) == s.(updatedAt := Some(now))
  {
  }

  /** Applying the same update twice is applying it once. */
  lemma MergeShopIdempotent(s: Shop, p: ShopPatch, now: string)
    ensures MergeShop(MergeShop(s, p, now), p, now) == MergeShop(s, p, now)
  {
  }

  /** Two updates in a row are one update whose later fields win. */
  lemma MergeShopTwice(s: Shop, p: ShopPatch, q: ShopPatch, t1: string, t2: string)
    ensures MergeShop(MergeShop(s, p, t1), q, t2) == MergeShop(s, LaterShopPatch(p, q), t2)
  {
  }

  /** `{ ...p, ...q }` for shop updates. */
  function LaterShopPatch(p: ShopPatch, q: ShopPatch): ShopPatch {
    ShopPatch(PickOptional(q.name, p.name), PickOptional(q.address, p.address),
              PickOptional(q.phone, p.phone), PickOptional(q.description, p.description),
              PickOptional(q.slotIntervalMinutes, p.slotIntervalMinutes),
              PickOptional(q.operatingHours, p.operatingHours),
              PickOptional(q.imageUrl, p.imageUrl), PickOptional(q.isActive, p.isActive))
  }

  /** Unlike `createShop`, an update stores a zero interval as it is. */
  lemma UpdateKeepsZeroInterval(s: Shop, now: string)
    ensures MergeShop(s, NoShopChange.(slotIntervalMinutes := Some(0)), now).slotIntervalMinutes == 0
    ensures IntervalOrDefault(Some(0)) == 30
  {
  }

  /** A stylist or service update with no fields supplied changes nothing,
      and each is idempotent. */
  lemma MergeStylistAndServiceNothing(st: Stylist, p: StylistPatch, sv: Service, q: ServicePatch)
    ensures MergeStylist(st, NoStylistChange) == st
    ensures MergeStylist(MergeStylist(st, p), p) == MergeStylist(st, p)
    ensures MergeService(sv, NoServiceChange) == sv
    ensures MergeService(MergeService(sv, q), q) == MergeService(sv, q)
  {
  }

  predicate IsActiveShop(s: Shop) { s.isActive }
  predicate IsActiveStylist(s: Stylist) { s.isActive }
  predicate IsActiveService(s: Service) { s.isActive }

  /** The three tables of the service. */
  class ShopDirectory {
    var shops: seq<Shop>
    var stylists: seq<Stylist>
    var services: seq<Service>

    /** The tables start as copies of the seed data. */
    constructor(seedShops: seq<Shop>, seedStylists: seq<Stylist>, seedServices: seq<Service>)
      ensures shops == seedShops && stylists == seedStylists && services == seedServices
    {
      shops := seedShops;
      stylists := seedStylists;
      services := seedServices;
    }

    /** No two shops share an id. */
    predicate ShopIdsUnique()
      reads this
    {
      forall a, b :: 0 <= a < b < |shops| ==> shops[a].id != shops[b].id
    }

    /** No two stylists share an id. */
    predicate StylistIdsUnique()
      reads this
    {
      forall a, b :: 0 <= a < b < |stylists| ==> stylists[a].id != stylists[b].id
    }

    /** No two services share an id. */
    predicate ServiceIdsUnique()
      reads this
    {
      forall a, b :: 0 <= a < b < |services| ==> services[a].id != services[b].id
    }

    // ---- shops ----

    /** `getShops`: the active shops, in table order. */
    function GetShops(): (r: seq<Shop>)
      reads this
      ensures forall x :: x in r <==> x in shops && x.isActive
    {
      FilterMembers(shops, IsActiveShop);
      Filter(shops, IsActiveShop)
    }

    /** `getShopById`: the first shop with that id if it is active. */
    function GetShopById(id: string): (r: Option<Shop>)
      reads this
      ensures r.None? <==> forall j :: 0 <= j < |shops| ==> !(shops[j].id == id && shops[j].isActive)
      ensures r.Some? ==> r.value in shops && r.value.id == id && r.value.isActive
    {
      Find(shops, (s: Shop) => s.id == id && s.isActive)
    }

    /** `getShopsByOwner`: that owner's shops, inactive ones included. */
    function GetShopsByOwner(ownerId: string): (r: seq<Shop>)
      reads this
      ensures forall x :: x in r <==> x in shops && x.ownerId == ownerId
    {
      FilterMembers(shops, (s: Shop) => s.ownerId == ownerId);
      Filter(shops, (s: Shop) => s.ownerId == ownerId)
    }

    /** `shops.findIndex(s => s.id === id)`. */
    function ShopIndex(id: string): (r: Option<nat>)
      reads this
      ensures r.Some? ==> r.value < |shops| && shops[r.value].id == id
      ensures r.None? <==> forall j :: 0 <= j < |shops| ==> shops[j].id != id
    {
      FindIndex(shops, (s: Shop) => s.id == id)
    }

    /** `createShop`: appends an active shop whose interval defaults to 30
        and whose missing or empty image is null; the shop is then found by id. */
    method CreateShop(ownerId: string, data: NewShop, id: string, now: string) returns (shop: Shop)
      requires forall j :: 0 <= j < |shops| ==> shops[j].id != id
      modifies this
      ensures shop == ShopOf(id, ownerId, data, now)
      ensures shop.isActive && shop.slotIntervalMinutes == IntervalOrDefault(data.slotIntervalMinutes)
      ensures shops == old(shops) + [shop]
      ensures stylists == old(stylists) && services == old(services)
      ensures GetShopById(id) == Some(shop)
      ensures old(ShopIdsUnique()) ==> ShopIdsUnique()
    {
      shop := ShopOf(id, ownerId, data, now);
      shops := shops + [shop];
      FindIndexAt(shops, (s: Shop) => s.id == id && s.isActive, |shops| - 1);
    }

    /** `updateShop`: null when no shop has the id; otherwise the first such
        shop is replaced by the merge and returned. */
    method UpdateShop(id: string, data: ShopPatch, now: string) returns (r: Option<Shop>)
      modifies this
      ensures old(ShopIndex(id)).None? ==> r.None? && shops == old(shops)
      ensures old(ShopIndex(id)).Some? ==>
        var i := old(ShopIndex(id)).value;
        r == Some(MergeShop(old(shops)[i], data, now)) && shops == old(shops)[i := r.value]
      ensures |shops| == |old(shops)|
      ensures stylists == old(stylists) && services == old(services)
      ensures ShopIdsUnique() <==> old(ShopIdsUnique())
    {
      var index := ShopIndex(id);
      if index.None? {
        return None;
      }
      var i := index.value;
      shops := shops[i := MergeShop(shops[i], data, now)];
      assert forall k :: 0 <= k < |shops| ==> shops[k].id == old(shops)[k].id;
      r := Some(shops[i]);
    }

    /** `deleteShop`: false when no shop has the id; otherwise the first such
        shop becomes inactive, so with unique ids it is no longer found. */
    method DeleteShop(id: string) returns (ok: bool)
      modifies this
      ensures ok <==> old(ShopIndex(id)).Some?
      ensures !ok ==> shops == old(shops)
      ensures ok ==>
        var i := old(ShopIndex(id)).value;
        shops == old(shops)[i := old(shops)[i].(isActive := false)]
      ensures |shops| == |old(shops)|
      ensures stylists == old(stylists) && services == old(services)
      ensures ShopIdsUnique() <==> old(ShopIdsUnique())
      ensures ok && ShopIdsUnique() ==> GetShopById(id).None?
    {
      var index := ShopIndex(id);
      if index.None? {
        return false;
      }
      var i := index.value;
      shops := shops[i := shops[i].(isActive := false)];
      assert forall k :: 0 <= k < |shops| ==> shops[k].id == old(shops)[k].id;
      ok := true;
    }

    // ---- stylists ----

    /** `getStylistsByShop`: that shop's active stylists. */
    function GetStylistsByShop(shopId: string): (r: seq<Stylist>)
      reads this
      ensures forall x :: x in r <==> x in stylists && x.shopId == shopId && x.isActive
    {
      FilterMembers(stylists, (s: Stylist) => s.shopId == shopId && s.isActive);
      Filter(stylists, (s: Stylist) => s.shopId == shopId && s.isActive)
    }

    /** `getStylistById`: the first stylist with that id if it is active. */
    function GetStylistById(id: string): (r: Option<Stylist>)
      reads this
      ensures r.None? <==> forall j :: 0 <= j < |stylists| ==> !(stylists[j].id == id && stylists[j].isActive)
      ensures r.Some? ==> r.value in stylists && r.value.id == id && r.value.isActive
    {
      Find(stylists, (s: Stylist) => s.id == id && s.isActive)
    }

    function StylistIndex(id: string): (r: Option<nat>)
      reads this
      ensures r.Some? ==> r.value < |stylists| && stylists[r.value].id == id
      ensures r.None? <==> forall j :: 0 <= j < |stylists| ==> stylists[j].id != id
    {
      FindIndex(stylists, (s: Stylist) => s.id == id)
    }

    /** `createStylist`: appends an active stylist, found by id afterwards. */
    method CreateStylist(data: NewStylist, id: string, now: string) returns (stylist: Stylist)
      requires forall j :: 0 <= j < |stylists| ==> stylists[j].id != id
      modifies this
      ensures stylist == StylistOf(id, data, now)
      ensures stylists == old(stylists) + [stylist]
      ensures shops == old(shops) && services == old(services)
      ensures GetStylistById(id) == Some(stylist)
      ensures old(StylistIdsUnique()) ==> StylistIdsUnique()
    {
      stylist := StylistOf(id, data, now);
      stylists := stylists + [stylist];
      FindIndexAt(stylists, (s: Stylist) => s.id == id && s.isActive, |stylists| - 1);
    }

    /** `updateStylist`: null when no stylist has the id; otherwise the merge. */
    method UpdateStylist(id: string, data: StylistPatch) returns (r: Option<Stylist>)
      modifies this
      ensures old(StylistIndex(id)).None? ==> r.None? && stylists == old(stylists)
      ensures old(StylistIndex(id)).Some? ==>
        var i := old(StylistIndex(id)).value;
        r == Some(MergeStylist(old(stylists)[i], data)) && stylists == old(stylists)[i := r.value]
      ensures |stylists| == |old(stylists)|
      ensures shops == old(shops) && services == old(services)
      ensures StylistIdsUnique() <==> old(StylistIdsUnique())
    {
      var index := StylistIndex(id);
      if index.None? {
        return None;
      }
      var i := index.value;
      stylists := stylists[i := MergeStylist(stylists[i], data)];
      assert forall k :: 0 <= k < |stylists| ==> stylists[k].id == old(stylists)[k].id;
      r := Some(stylists[i]);
    }

    /** `deleteStylist`: a soft delete of the first stylist with the id. */
    method DeleteStylist(id: string) returns (ok: bool)
      modifies this
      ensures ok <==> old(StylistIndex(id)).Some?
      ensures !ok ==> stylists == old(stylists)
      ensures ok ==>
        var i := old(StylistIndex(id)).value;
        stylists == old(stylists)[i := old(stylists)[i].(isActive := false)]
      ensures |stylists| == |old(stylists)|
      ensures shops == old(shops) && services == old(services)
      ensures StylistIdsUnique() <==> old(StylistIdsUnique())
      ensures ok && StylistIdsUnique() ==> GetStylistById(id).None?
    {
      var index := StylistIndex(id);
      if index.None? {
        return false;
      }
      var i := index.value;
      stylists := stylists[i := stylists[i].(isActive := false)];
      assert forall k :: 0 <= k < |stylists| ==> stylists[k].id == old(stylists)[k].id;
      ok := true;
    }

    // ---- services ----

    /** `getServicesByShop`: that shop's active services. */
    function GetServicesByShop(shopId: string): (r: seq<Service>)
      reads this
      ensures forall x :: x in r <==> x in services && x.shopId == shopId && x.isActive
    {
      FilterMembers(services, (s: Service) => s.shopId == shopId && s.isActive);
      Filter(services, (s: Service) => s.shopId == shopId && s.isActive)
    }

    /** `getServiceById`: the first service with that id if it is active. */
    function GetServiceById(id: string): (r: Option<Service>)
      reads this
      ensures r.None? <==> forall j :: 0 <= j < |services| ==> !(services[j].id == id && services[j].isActive)
      ensures r.Some? ==> r.value in services && r.value.id == id && r.value.isActive
    {
      Find(services, (s: Service) => s.id == id && s.isActive)
    }

    function ServiceIndex(id: string): (r: Option<nat>)
      reads this
      ensures r.Some? ==> r.value < |services| && services[r.value].id == id
      ensures r.None? <==> forall j :: 0 <= j < |services| ==> services[j].id != id
    {
      FindIndex(services, (s: Service) => s.id == id)
    }

    /** `createService`: appends an active service, found by id afterwards. */
    method CreateService(data: NewService, id: string, now: string) returns (service: Service)
      requires forall j :: 0 <= j < |services| ==> services[j].id != id
      modifies this
      ensures service == ServiceOf(id, data, now)
      ensures services == old(services) + [service]
      ensures shops == old(shops) && stylists == old(stylists)
      ensures GetServiceById(id) == Some(service)
      ensures old(ServiceIdsUnique()) ==> ServiceIdsUnique()
    {
      service := ServiceOf(id, data, now);
      services := services + [service];
      FindIndexAt(services, (s: Service) => s.id == id && s.isActive, |services| - 1);
    }

    /** `updateService`: null when no service has the id; otherwise the merge. */
    method UpdateService(id: string, data: ServicePatch) returns (r: Option<Service>)
      modifies this
      ensures old(ServiceIndex(id)).None? ==> r.None? && services == old(services)
      ensures old(ServiceIndex(id)).Some? ==>
        var i := old(ServiceIndex(id)).value;
        r == Some(MergeService(old(services)[i], data)) && services == old(services)[i := r.value]
      ensures |services| == |old(services)|
      ensures shops == old(shops) && stylists == old(stylists)
      ensures ServiceIdsUnique() <==> old(ServiceIdsUnique())
    {
      var index := ServiceIndex(id);
      if index.None? {
        return None;
      }
      var i := index.value;
      services := services[i := MergeService(services[i], data)];
      assert forall k :: 0 <= k < |services| ==> services[k].id == old(services)[k].id;
      r := Some(services[i]);
    }

    /** `deleteService`: a soft delete of the first service with the id. */
    method DeleteService(id: string) returns (ok: bool)
      modifies this
      ensures ok <==> old(ServiceIndex(id)).Some?
      ensures !ok ==> services == old(services)
      ensures ok ==>
        var i := old(ServiceIndex(id)).value;
        services == old(services)[i := old(services)[i].(isActive := false)]
      ensures |services| == |old(services)|
      ensures shops == old(shops) && stylists == old(stylists)
      ensures ServiceIdsUnique() <==> old(ServiceIdsUnique())
      ensures ok && ServiceIdsUnique() ==> GetServiceById(id).None?
    {
      var index := ServiceIndex(id);
      if index.None? {
        return false;
      }
      var i := index.value;
      services := services[i := services[i].(isActive := false)];
      assert forall k :: 0 <= k < |services| ==> services[k].id == old(services)[k].id;
      ok := true;
    }
  }
}
