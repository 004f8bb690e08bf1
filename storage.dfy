/**
 * The browser store: four keys, each holding the JSON text of one collection (documents,
 * clients, suppliers) or of the company profile.  A key is missing, holds a value of its
 * kind, or holds text that does not parse (`Unreadable`).  Every save reads the collection
 * back, replaces the first record with the same id or appends, and writes the whole
 * collection again; every delete writes back the collection without that id.
 */
module Storage {
  import opened Wrappers
  import opened Types
  import Keyed
  import Constants

  const DocsKey := "devisfacture_docs"
  const ProfileKey := "devisfacture_profile"
  const ClientsKey := "devisfacture_clients"
  const SuppliersKey := "devisfacture_suppliers"

  /** What a key holds once its JSON text is parsed. */
  datatype Slot =
    | DocsSlot(docs: seq<DocumentData>)
    | ProfileSlot(profile: CompanyProfile)
    | ClientsSlot(clients: seq<Client>)
    | SuppliersSlot(suppliers: seq<Supplier>)
    | Unreadable

  /** Each key holds its own kind of value, or text that does not parse. */
  predicate SlotFits(key: string, slot: Slot) {
    slot.Unreadable?
    || (key == DocsKey && slot.DocsSlot?)
    || (key == ProfileKey && slot.ProfileSlot?)
    || (key == ClientsKey && slot.ClientsSlot?)
    || (key == SuppliersKey && slot.SuppliersSlot?)
  }

  /** The four keys are distinct, so writing one collection cannot disturb another. */
  lemma KeysDistinct()
    ensures DocsKey != ProfileKey && DocsKey != ClientsKey && DocsKey != SuppliersKey
    ensures ProfileKey != ClientsKey && ProfileKey != SuppliersKey && ClientsKey != SuppliersKey
  {
    assert DocsKey[13] == 'd' && ProfileKey[13] == 'p' && ClientsKey[13] == 'c' && SuppliersKey[13] == 's';
  }

  /** `findIndex(x => x.id === id)`: the first index with that id, or -1. */
  method FindFirst<T>(s: seq<T>, idOf: T -> string, id: string) returns (index: int)
    ensures index == match Keyed.FindIndex(s, idOf, id) case Some(i) => i case None => -1
  {
    index := 0;
    while index < |s| && idOf(s[index]) != id
      invariant 0 <= index <= |s|
      invariant forall k :: 0 <= k < index ==> idOf(s[k]) != id
    {
      index := index + 1;
    }
    if index == |s| {
      index := -1;
    } else {
      var r := Keyed.FindIndex(s, idOf, id);
      assert r.Some?;
      assert !(r.value < index) && !(r.value > index);
    }
  }

  /** The store of the four keys, standing for `localStorage` and `JSON`. */
  class StorageService {
    var slots: map<string, Slot>

    /**
     * Each key holds its own kind of value or unparsable text.  Under it a getter returns
     * exactly what was stored under its key, and falls back only for a missing or
     * unparsable key (`ValidReads`).
     */
    ghost predicate Valid()
      reads this
    {
      forall key :: key in slots ==> SlotFits(key, slots[key])
    }

    /** A browser that has never saved anything. */
    constructor ()
      ensures Valid() && slots == map[]
    {
      slots := map[];
    }

    /** `getDocuments`: a missing or unparsable collection reads as empty. */
    function GetDocuments(): seq<DocumentData>
      reads this
    {
      if DocsKey in slots && slots[DocsKey].DocsSlot? then slots[DocsKey].docs else []
    }

    /** `getProfile`: a missing or unparsable profile reads as the default profile. */
    function GetProfile(): CompanyProfile
      reads this
    {
      if ProfileKey in slots && slots[ProfileKey].ProfileSlot? then slots[ProfileKey].profile else Constants.InitialProfile
    }

    function GetClients(): seq<Client>
      reads this
    {
      if ClientsKey in slots && slots[ClientsKey].ClientsSlot? then slots[ClientsKey].clients else []
    }

    function GetSuppliers(): seq<Supplier>
      reads this
    {
      if SuppliersKey in slots && slots[SuppliersKey].SuppliersSlot? then slots[SuppliersKey].suppliers else []
    }

    /** `saveDocument`: replace the first document with the same id, or append it. */
    method SaveDocument(doc: DocumentData)
      requires Valid()
      modifies this
      ensures Valid()
      ensures slots == old(slots)[DocsKey := DocsSlot(Keyed.Upsert(old(GetDocuments()), doc, DocumentId))]
      ensures GetDocuments() == Keyed.Upsert(old(GetDocuments()), doc, DocumentId)
      ensures GetProfile() == old(GetProfile()) && GetClients() == old(GetClients()) && GetSuppliers() == old(GetSuppliers())
    {
      KeysDistinct();
      var docs := GetDocuments();
      var index := FindFirst(docs, DocumentId, doc.id);
      if index >= 0 {
        docs := docs[index := doc];
      } else {
        docs := docs + [doc];
      }
      slots := slots[DocsKey := DocsSlot(docs)];
    }

    /** `deleteDocument`: write back the documents without that id. */
    method DeleteDocument(id: string)
      requires Valid()
      modifies this
      ensures Valid()
      ensures slots == old(slots)[DocsKey := DocsSlot(Keyed.RemoveById(old(GetDocuments()), DocumentId, id))]
      ensures GetDocuments() == Keyed.RemoveById(old(GetDocuments()), DocumentId, id)
      ensures GetProfile() == old(GetProfile()) && GetClients() == old(GetClients()) && GetSuppliers() == old(GetSuppliers())
    {
      KeysDistinct();
      var docs := GetDocuments();
      slots := slots[DocsKey := DocsSlot(Keyed.RemoveById(docs, DocumentId, id))];
    }

    /** `saveProfile`: the profile is written whole. */
    method SaveProfile(profile: CompanyProfile)
      requires Valid()
      modifies this
      ensures Valid()
      ensures slots == old(slots)[ProfileKey := ProfileSlot(profile)]
      ensures GetProfile() == profile
      ensures GetDocuments() == old(GetDocuments()) && GetClients() == old(GetClients()) && GetSuppliers() == old(GetSuppliers())
    {
      KeysDistinct();
      slots := slots[ProfileKey := ProfileSlot(profile)];
    }

    method SaveClient(client: Client)
      requires Valid()
      modifies this
      ensures Valid()
      ensures slots == old(slots)[ClientsKey := ClientsSlot(Keyed.Upsert(old(GetClients()), client, ClientId))]
      ensures GetClients() == Keyed.Upsert(old(GetClients()), client, ClientId)
      ensures GetDocuments() == old(GetDocuments()) && GetProfile() == old(GetProfile()) && GetSuppliers() == old(GetSuppliers())
    {
      KeysDistinct();
      var clients := GetClients();
      var index := FindFirst(clients, ClientId, client.id);
      if index >= 0 {
        clients := clients[index := client];
      } else {
        clients := clients + [client];
      }
      slots := slots[ClientsKey := ClientsSlot(clients)];
    }

    method DeleteClient(id: string)
      requires Valid()
      modifies this
      ensures Valid()
      ensures slots == old(slots)[ClientsKey := ClientsSlot(Keyed.RemoveById(old(GetClients()), ClientId, id))]
      ensures GetClients() == Keyed.RemoveById(old(GetClients()), ClientId, id)
      ensures GetDocuments() == old(GetDocuments()) && GetProfile() == old(GetProfile()) && GetSuppliers() == old(GetSuppliers())
    {
      KeysDistinct();
      var clients := GetClients();
      slots := slots[ClientsKey := ClientsSlot(Keyed.RemoveById(clients, ClientId, id))];
    }

    method SaveSupplier(supplier: Supplier)
      requires Valid()
      modifies this
      ensures Valid()
      ensures slots == old(slots)[SuppliersKey := SuppliersSlot(Keyed.Upsert(old(GetSuppliers()), supplier, SupplierId))]
      ensures GetSuppliers() == Keyed.Upsert(old(GetSuppliers()), supplier, SupplierId)
      ensures GetDocuments() == old(GetDocuments()) && GetProfile() == old(GetProfile()) && GetClients() == old(GetClients())
    {
      KeysDistinct();
      var suppliers := GetSuppliers();
      var index := FindFirst(suppliers, SupplierId, supplier.id);
      if index >= 0 {
        suppliers := suppliers[index := supplier];
      } else {
        suppliers := suppliers + [supplier];
      }
      slots := slots[SuppliersKey := SuppliersSlot(suppliers)];
    }

    method DeleteSupplier(id: string)
      requires Valid()
      modifies this
      ensures Valid()
      ensures slots == old(slots)[SuppliersKey := SuppliersSlot(Keyed.RemoveById(old(GetSuppliers()), SupplierId, id))]
      ensures GetSuppliers() == Keyed.RemoveById(old(GetSuppliers()), SupplierId, id)
      ensures GetDocuments() == old(GetDocuments()) && GetProfile() == old(GetProfile()) && GetClients() == old(GetClients())
    {
      KeysDistinct();
      var suppliers := GetSuppliers();
      slots := slots[SuppliersKey := SuppliersSlot(Keyed.RemoveById(suppliers, SupplierId, id))];
    }
  }

  /** A key that is missing or does not parse reads as an empty collection, and the profile as the default one. */
  lemma ReadFallbacks(store: StorageService)
    ensures DocsKey !in store.slots || store.slots[DocsKey].Unreadable? ==> store.GetDocuments() == []
    ensures ClientsKey !in store.slots || store.slots[ClientsKey].Unreadable? ==> store.GetClients() == []
    ensures SuppliersKey !in store.slots || store.slots[SuppliersKey].Unreadable? ==> store.GetSuppliers() == []
    ensures ProfileKey !in store.slots || store.slots[ProfileKey].Unreadable? ==> store.GetProfile() == Constants.InitialProfile
  {
  }

  /** In a valid store each getter returns the stored value whenever its key holds readable text. */
  lemma ValidReads(store: StorageService)
    requires store.Valid()
    ensures DocsKey in store.slots && !store.slots[DocsKey].Unreadable? ==> store.GetDocuments() == store.slots[DocsKey].docs
    ensures ProfileKey in store.slots && !store.slots[ProfileKey].Unreadable? ==> store.GetProfile() == store.slots[ProfileKey].profile
    ensures ClientsKey in store.slots && !store.slots[ClientsKey].Unreadable? ==> store.GetClients() == store.slots[ClientsKey].clients
    ensures SuppliersKey in store.slots && !store.slots[SuppliersKey].Unreadable? ==> store.GetSuppliers() == store.slots[SuppliersKey].suppliers
  {
    KeysDistinct();
  }

  /** A fresh store reads as empty collections and the default profile. */
  method FreshStoreReads() returns (docs: seq<DocumentData>, profile: CompanyProfile)
    ensures docs == [] && profile == Constants.InitialProfile
  {
    var store := new StorageService();
    docs := store.GetDocuments();
    profile := store.GetProfile();
  }

  /**
   * Saving a document and reading the documents back: an existing id keeps the length and
   * puts the document where the first record with that id was; a new id grows the list by one
   * at the end; saving again changes nothing; and a profile saved before is still there.
   */
  method SaveThenRead(store: StorageService, doc: DocumentData, profile: CompanyProfile) returns (before: seq<DocumentData>, after: seq<DocumentData>, again: seq<DocumentData>, readProfile: CompanyProfile)
    requires store.Valid()
    modifies store
    ensures Keyed.HasId(before, DocumentId, doc.id) ==> |after| == |before| && doc in after
    ensures !Keyed.HasId(before, DocumentId, doc.id) ==> after == before + [doc]
    ensures again == after
    ensures readProfile == profile
  {
    store.SaveProfile(profile);
    before := store.GetDocuments();
    store.SaveDocument(doc);
    after := store.GetDocuments();
    Keyed.UpsertStores(before, doc, DocumentId);
    var found := Keyed.FindIndex(before, DocumentId, doc.id);
    if found.Some? {
      Keyed.UpsertExisting(before, doc, DocumentId, found.value);
    } else {
      Keyed.UpsertNew(before, doc, DocumentId);
    }
    store.SaveDocument(doc);
    again := store.GetDocuments();
    Keyed.UpsertIdempotent(before, doc, DocumentId);
    readProfile := store.GetProfile();
  }
}
