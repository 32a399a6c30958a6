/** The upgrade of a manifest from format 0.8 to 0.10
    (tools/upgrade/0.8_to_0.10/manifest_json_from_0_8_to_0_10.py).

    An api section, the api itself, an entry of one of its lists or the result of
    a command, declares attributes and a list of required ones.  The old format
    keeps the two side by side, the new one keeps both inside "property".  A
    missing key and a null are the same None to the script; here both are Null. */
module ManifestUpgrade {
  import opened Wrappers
  import opened JsonValues

  const CMD_KEYS: set<string> := {"cmd_in", "cmd_out"}
  const DATA_KEYS: set<string> :=
    {"data_in", "data_out", "audio_frame_in", "audio_frame_out", "video_frame_in", "video_frame_out"}

  function Get(j: Json, key: string): Json {
    if j.Has(key) then j.fields[key] else Null
  }

  // ----- one section

  /** What is taken for the new format. */
  predicate LooksNew(property: Json) {
    property.HasObject("properties")
  }

  function Field(key: string, v: Json): map<string, Json> {
    if v.Null? then map[] else map[key := v]
  }

  function ConvertFormat(property: Json, required: Json): Json {
    if property.Null? && required.Null? then Null
    else if LooksNew(property) then
      if !required.Null? && !property.Has("required") then property.With("required", required) else property
    else
      Obj(Field("properties", property) + Field("required", required))
  }

  datatype Declaration = Declaration(attributes: Json, required: Json)

  function OldDeclaration(section: Json): Declaration {
    Declaration(Get(section, "property"), Get(section, "required"))
  }

  function NewDeclaration(section: Json): Declaration {
    var property := Get(section, "property");
    Declaration(Get(property, "properties"), Get(property, "required"))
  }

  /** A section that converting a second time leaves alone. */
  predicate Settles(section: Json) {
    Get(section, "property").Obj? || (Get(section, "property").Null? && Get(section, "required").Null?)
  }

  lemma NotItsOwnPart(property: Json)
    requires LooksNew(property)
    ensures property.fields["properties"] != property
    decreases property
  {
    if property.fields["properties"] == property {
      NotItsOwnPart(property.fields["properties"]);
    }
  }

  /** The conversion keeps the declaration unless an attribute of the section is
      itself named "properties" and is an object. */
  lemma SectionKeptIff(section: Json, converted: Json)
    requires Get(converted, "property") == ConvertFormat(Get(section, "property"), Get(section, "required"))
    ensures NewDeclaration(converted) == OldDeclaration(section) <==> !LooksNew(Get(section, "property"))
  {
    if LooksNew(Get(section, "property")) {
      NotItsOwnPart(Get(section, "property"));
    }
  }

  lemma FormatTwiceIff(property: Json, required: Json)
    ensures var once := ConvertFormat(property, required);
            ConvertFormat(once, Null) == once <==> property.Obj? || (property.Null? && required.Null?)
  {
    var once := ConvertFormat(property, required);
    if property.Obj? && !LooksNew(property) {
      assert once.fields["properties"] == property;
    } else if !property.Obj? && !property.Null? {
      assert once.fields["properties"] == property;
      assert ConvertFormat(once, Null).fields["properties"] == once;
    } else if property.Null? && !required.Null? {
      assert "properties" !in once.fields;
      assert "properties" in ConvertFormat(once, Null).fields;
    }
  }

  // ----- list entries

  function Made(name: Json, property: Json, resultProperty: Json): (r: Json)
    ensures r.Obj?
  {
    Obj(map["name" := name] + Field("property", property)
      + (if resultProperty.Null? then map[] else map["result" := Obj(map["property" := resultProperty])]))
  }

  lemma MadeOf(name: Json, property: Json, resultProperty: Json)
    ensures var made := Made(name, property, resultProperty);
            && made.Has("name") && made.fields["name"] == name
            && Get(made, "property") == property && Get(made, "required") == Null
            && Get(Get(made, "result"), "property") == resultProperty && Get(Get(made, "result"), "required") == Null
            && (made.Has("result") ==> made.fields["result"].Obj?)
  {
  }

  /** None where the script raises. */
  function ConvertCmd(cmd: Json): Option<Json> {
    if !cmd.Has("name") || (cmd.Has("result") && !cmd.fields["result"].Obj?) then None
    else
      var result := Get(cmd, "result");
      Some(Made(cmd.fields["name"],
                ConvertFormat(Get(cmd, "property"), Get(cmd, "required")),
                ConvertFormat(Get(result, "property"), Get(result, "required"))))
  }

  function ConvertData(data: Json): Option<Json> {
    if !data.Has("name") then None
    else Some(Made(data.fields["name"], ConvertFormat(Get(data, "property"), Get(data, "required")), Null))
  }

  function ConvertEntry(key: string, entry: Json): Option<Json> {
    if key in CMD_KEYS then ConvertCmd(entry) else ConvertData(entry)
  }

  /** What iterating over the value yields.  The keys of an object and the
      characters of a text have no name, so only empty ones do not raise. */
  function Entries(v: Json): Option<seq<Json>> {
    match v
    case Arr(items) => Some(items)
    case Obj(fields) => if fields == map[] then Some([]) else None
    case Str(s) => if s == "" then Some([]) else None
    case _ => None
  }

  predicate Converts(key: string, v: Json) {
    Entries(v).Some? && forall i :: 0 <= i < |Entries(v).value| ==> ConvertEntry(key, Entries(v).value[i]).Some?
  }

  function ConvertEntries(key: string, v: Json): (r: Json)
    requires Converts(key, v)
    ensures r.Arr? && |r.items| == |Entries(v).value|
    ensures forall i :: 0 <= i < |r.items| ==> Some(r.items[i]) == ConvertEntry(key, Entries(v).value[i])
  {
    var items := Entries(v).value;
    Arr(seq(|items|, i requires 0 <= i < |items| => ConvertEntry(key, items[i]).value))
  }

  // ----- the api and the file

  predicate ApiConverts(api: Json) {
    api.Obj? && forall k :: k in CMD_KEYS + DATA_KEYS && api.Has(k) ==> Converts(k, api.fields[k])
  }

  function ConvertLists(api: Json): map<string, Json>
    requires ApiConverts(api)
  {
    map k | k in CMD_KEYS + DATA_KEYS && api.Has(k) :: ConvertEntries(k, api.fields[k])
  }

  function ConvertApi(api: Json): (r: Json)
    requires ApiConverts(api)
    ensures r.Obj?
  {
    Obj(Field("property", ConvertFormat(Get(api, "property"), Get(api, "required")))
      + (if api.Has("interface") then map["interface" := api.fields["interface"]] else map[])
      + ConvertLists(api))
  }

  predicate IsTarget(manifest: Json) {
    && manifest.Has("type") && manifest.Has("name") && manifest.Has("version")
    && manifest.HasObject("api") && manifest.fields["api"].fields != map[]
  }

  /** The content of the file afterwards; whatever raises leaves it alone. */
  function Upgrade(manifest: Json): Json {
    if IsTarget(manifest) && ApiConverts(manifest.fields["api"]) then
      manifest.With("api", ConvertApi(manifest.fields["api"]))
    else
      manifest
  }

  // ----- every section of an api

  datatype Path = Top | Entry(key: string, index: nat) | ResultOf(key: string, index: nat)

  function EntryAt(api: Json, key: string, index: nat): Json {
    if key in CMD_KEYS + DATA_KEYS && api.Has(key) && Entries(api.fields[key]).Some?
      && index < |Entries(api.fields[key]).value|
    then Entries(api.fields[key]).value[index]
    else Null
  }

  /** Null where there is none. */
  function Section(api: Json, path: Path): Json {
    match path
    case Top => api
    case Entry(key, index) => EntryAt(api, key, index)
    case ResultOf(key, index) => if key in CMD_KEYS then Get(EntryAt(api, key, index), "result") else Null
  }

  lemma NoOtherKeys()
    ensures "property" !in CMD_KEYS + DATA_KEYS && "required" !in CMD_KEYS + DATA_KEYS
    ensures "interface" !in CMD_KEYS + DATA_KEYS
  {
  }

  lemma {:induction false} ConvertedTop(api: Json)
    requires ApiConverts(api)
    ensures Get(ConvertApi(api), "property") == ConvertFormat(Get(api, "property"), Get(api, "required"))
    ensures Get(ConvertApi(api), "required") == Null
    ensures ConvertApi(api).Has("interface") == api.Has("interface")
    ensures api.Has("interface") ==> ConvertApi(api).fields["interface"] == api.fields["interface"]
  {
    NoOtherKeys();
    var lists := ConvertLists(api);
    assert "property" !in lists && "required" !in lists && "interface" !in lists;
  }

  lemma ConvertedLists(api: Json, key: string)
    requires ApiConverts(api) && key in CMD_KEYS + DATA_KEYS
    ensures ConvertApi(api).Has(key) <==> api.Has(key)
    ensures api.Has(key) ==> ConvertApi(api).fields[key] == ConvertEntries(key, api.fields[key])
  {
    NoOtherKeys();
  }

  lemma ConvertedEntryAt(api: Json, key: string, index: nat)
    requires ApiConverts(api)
    ensures EntryAt(api, key, index) != Null ==>
      Some(EntryAt(ConvertApi(api), key, index)) == ConvertEntry(key, EntryAt(api, key, index))
    ensures EntryAt(api, key, index) == Null ==> EntryAt(ConvertApi(api), key, index) == Null
  {
    if key in CMD_KEYS + DATA_KEYS {
      ConvertedLists(api, key);
      if api.Has(key) {
        assert Converts(key, api.fields[key]);
      }
    }
  }

  lemma ConvertedEntry(key: string, entry: Json)
    requires ConvertEntry(key, entry).Some?
    ensures var new_ := ConvertEntry(key, entry).value;
            var result, newResult := Get(entry, "result"), Get(new_, "result");
            && new_.Has("name") && new_.fields["name"] == entry.fields["name"]
            && Get(new_, "property") == ConvertFormat(Get(entry, "property"), Get(entry, "required"))
            && (key in CMD_KEYS ==>
              Get(newResult, "property") == ConvertFormat(Get(result, "property"), Get(result, "required")))
  {
    var result := Get(entry, "result");
    MadeOf(entry.fields["name"], ConvertFormat(Get(entry, "property"), Get(entry, "required")),
           if key in CMD_KEYS then ConvertFormat(Get(result, "property"), Get(result, "required")) else Null);
  }

  lemma {:induction false} ConvertedSection(api: Json, path: Path)
    requires ApiConverts(api)
    ensures var section := Section(api, path);
            Get(Section(ConvertApi(api), path), "property")
              == ConvertFormat(Get(section, "property"), Get(section, "required"))
  {
    if path.Top? {
      ConvertedTop(api);
    } else {
      var entry := EntryAt(api, path.key, path.index);
      ConvertedEntryAt(api, path.key, path.index);
      if entry != Null {
        ConvertedEntry(path.key, entry);
      }
    }
  }

  /** Every section keeps its declaration exactly when none of its attributes is
      an object named "properties". */
  lemma {:induction false} DeclarationsKeptIff(api: Json, path: Path)
    requires ApiConverts(api)
    ensures NewDeclaration(Section(ConvertApi(api), path)) == OldDeclaration(Section(api, path))
      <==> !LooksNew(Get(Section(api, path), "property"))
  {
    ConvertedSection(api, path);
    SectionKeptIff(Section(api, path), Section(ConvertApi(api), path));
  }

  /** A section already in the new format keeps what it declares; a required
      list beside it is taken only if there is none inside. */
  lemma {:induction false} NewFormatKept(api: Json, path: Path)
    requires ApiConverts(api) && LooksNew(Get(Section(api, path), "property"))
    ensures var property := Get(Section(api, path), "property");
            NewDeclaration(Section(ConvertApi(api), path)) ==
              Declaration(property.fields["properties"],
                          if property.Has("required") then property.fields["required"]
                          else Get(Section(api, path), "required"))
  {
    ConvertedSection(api, path);
  }

  /** Names, numbers and order of the entries stay, and so does the interface. */
  lemma {:induction false} EntriesKept(api: Json, key: string, index: nat)
    requires ApiConverts(api)
    ensures Get(EntryAt(ConvertApi(api), key, index), "name") == Get(EntryAt(api, key, index), "name")
    ensures EntryAt(ConvertApi(api), key, index) == Null <==> EntryAt(api, key, index) == Null
    ensures Get(ConvertApi(api), "interface") == Get(api, "interface")
  {
    ConvertedTop(api);
    ConvertedEntryAt(api, key, index);
    if EntryAt(api, key, index) != Null {
      ConvertedEntry(key, EntryAt(api, key, index));
    }
  }

  /** An entry keeps its name and what it and, for a command, its result declare;
      nothing else is made of it. */
  ghost predicate EntryKept(was: Json, now: Json, command: bool) {
    && was.Has("name") && now.Has("name") && now.fields["name"] == was.fields["name"]
    && (NewDeclaration(now) == OldDeclaration(was) <==> !LooksNew(Get(was, "property")))
    && (command ==> (NewDeclaration(Get(now, "result")) == OldDeclaration(Get(was, "result"))
                     <==> !LooksNew(Get(Get(was, "result"), "property"))))
    && (!command ==> !now.Has("result"))
    && now.fields.Keys <= {"name", "property", "result"}
  }

  lemma ConvertedIsKept(key: string, was: Json)
    requires ConvertEntry(key, was).Some?
    ensures EntryKept(was, ConvertEntry(key, was).value, key in CMD_KEYS)
  {
    var now := ConvertEntry(key, was).value;
    ConvertedEntry(key, was);
    SectionKeptIff(was, now);
    if key in CMD_KEYS {
      SectionKeptIff(Get(was, "result"), Get(now, "result"));
    }
  }

  lemma ListNames(key: string)
    ensures key in {"cmd_in", "cmd_out"} <==> key in CMD_KEYS
    ensures key in {"data_in", "data_out", "audio_frame_in", "audio_frame_out", "video_frame_in", "video_frame_out"}
      <==> key in DATA_KEYS
  {
  }

  /** Every entry of the eight lists stays in its list at its place. */
  lemma {:induction false} ListKept(api: Json, key: string)
    requires ApiConverts(api) && api.HasArray(key)
    requires key in {"cmd_in", "cmd_out"} || key in {"data_in", "data_out", "audio_frame_in", "audio_frame_out",
                                                     "video_frame_in", "video_frame_out"}
    ensures ConvertApi(api).HasArray(key) && |ConvertApi(api).fields[key].items| == |api.fields[key].items|
    ensures forall i :: 0 <= i < |api.fields[key].items| ==>
      EntryKept(api.fields[key].items[i], ConvertApi(api).fields[key].items[i], key in {"cmd_in", "cmd_out"})
  {
    ListNames(key);
    assert Converts(key, api.fields[key]);
    ConvertedLists(api, key);
    var items := api.fields[key].items;
    forall i | 0 <= i < |items|
      ensures EntryKept(items[i], ConvertApi(api).fields[key].items[i], key in {"cmd_in", "cmd_out"})
    {
      ConvertedIsKept(key, items[i]);
    }
  }

  /** The converted api has nothing but these keys. */
  lemma ApiKeys(api: Json, key: string)
    requires ApiConverts(api)
    ensures ConvertApi(api).Has(key) && key != "property" ==> api.Has(key)
    ensures ConvertApi(api).Has(key) ==>
      key in {"property", "interface", "cmd_in", "cmd_out", "data_in", "data_out", "audio_frame_in", "audio_frame_out",
              "video_frame_in", "video_frame_out"}
  {
  }

  /** The script can go through the value of a list: it has named entries only,
      and what a command has for a result is an object; or there is nothing. */
  ghost predicate Listable(v: Json, commands: bool) {
    || v == Obj(map[]) || v == Str("")
    || (v.Arr? && forall i :: 0 <= i < |v.items| ==>
          v.items[i].Has("name") && (commands && v.items[i].Has("result") ==> v.items[i].fields["result"].Obj?))
  }

  ghost predicate AllListable(api: map<string, Json>, keys: set<string>, commands: bool) {
    forall k :: k in keys && k in api ==> Listable(api[k], commands)
  }

  /** A manifest with a type, a name, a version and something in its api is
      upgraded if the lists of the api can be gone through; any other file stays
      as it is. */
  lemma {:induction false} UpgradedIff(manifest: Json)
    ensures
      if manifest.Obj? && {"type", "name", "version"} <= manifest.fields.Keys && manifest.HasObject("api")
        && manifest.fields["api"].fields != map[]
        && AllListable(manifest.fields["api"].fields, {"cmd_in", "cmd_out"}, true)
        && AllListable(manifest.fields["api"].fields, {"data_in", "data_out", "audio_frame_in", "audio_frame_out",
                                                       "video_frame_in", "video_frame_out"}, false)
      then
        ApiConverts(manifest.fields["api"])
        && Upgrade(manifest) == manifest.With("api", ConvertApi(manifest.fields["api"]))
      else
        Upgrade(manifest) == manifest
  {
    forall k, v ensures Converts(k, v) <==> Listable(v, k in CMD_KEYS) {
      ConvertsIff(k, v);
    }
    assert CMD_KEYS !! DATA_KEYS;
  }

  lemma ConvertsIff(key: string, v: Json)
    ensures Converts(key, v) <==> Listable(v, key in CMD_KEYS)
  {
  }

  // ----- converting twice

  predicate EntrySettles(key: string, entry: Json) {
    Settles(entry) && (key in CMD_KEYS ==> Settles(Get(entry, "result")))
  }

  lemma {:induction false} EntryTwiceIff(key: string, entry: Json)
    requires ConvertEntry(key, entry).Some?
    ensures var once := ConvertEntry(key, entry).value;
            ConvertEntry(key, once).Some? && (ConvertEntry(key, once).value == once <==> EntrySettles(key, entry))
  {
    var name, result := entry.fields["name"], Get(entry, "result");
    var p := ConvertFormat(Get(entry, "property"), Get(entry, "required"));
    var r := if key in CMD_KEYS then ConvertFormat(Get(result, "property"), Get(result, "required")) else Null;
    FormatTwiceIff(Get(entry, "property"), Get(entry, "required"));
    FormatTwiceIff(Get(result, "property"), Get(result, "required"));
    MadeOf(name, p, r);
    MadeOf(name, ConvertFormat(p, Null), if key in CMD_KEYS then ConvertFormat(r, Null) else Null);
  }

  predicate ListSettles(key: string, v: Json)
    requires Entries(v).Some?
  {
    forall i :: 0 <= i < |Entries(v).value| ==> EntrySettles(key, Entries(v).value[i])
  }

  lemma {:induction false} ListTwiceIff(key: string, v: Json)
    requires Converts(key, v)
    ensures var once := ConvertEntries(key, v);
            Converts(key, once) && (ConvertEntries(key, once) == once <==> ListSettles(key, v))
  {
    var once := ConvertEntries(key, v);
    forall i | 0 <= i < |once.items|
      ensures ConvertEntry(key, once.items[i]).Some?
      ensures ConvertEntry(key, once.items[i]).value == once.items[i] <==> EntrySettles(key, Entries(v).value[i])
    {
      EntryTwiceIff(key, Entries(v).value[i]);
    }
    if ListSettles(key, v) {
      assert ConvertEntries(key, once).items == once.items;
    }
  }

  predicate ApiSettles(api: Json)
    requires ApiConverts(api)
  {
    Settles(api) && forall k :: k in CMD_KEYS + DATA_KEYS && api.Has(k) ==> ListSettles(k, api.fields[k])
  }

  lemma {:induction false} ConvertedConverts(api: Json)
    requires ApiConverts(api)
    ensures ApiConverts(ConvertApi(api))
  {
    var once := ConvertApi(api);
    forall k | k in CMD_KEYS + DATA_KEYS && once.Has(k) ensures Converts(k, once.fields[k]) {
      ConvertedLists(api, k);
      ListTwiceIff(k, api.fields[k]);
    }
  }

  /** The converted api has a property, an interface and lists, nothing else. */
  lemma {:induction false} SameApi(api: Json, other: Json)
    requires ApiConverts(api) && ApiConverts(other)
    requires Get(ConvertApi(api), "property") == Get(ConvertApi(other), "property")
    requires api.Has("interface") == other.Has("interface")
    requires api.Has("interface") ==> api.fields["interface"] == other.fields["interface"]
    requires ConvertLists(api) == ConvertLists(other)
    ensures ConvertApi(api) == ConvertApi(other)
  {
    ConvertedTop(api);
    ConvertedTop(other);
  }

  lemma {:induction false} ApiTwiceIff(api: Json)
    requires ApiConverts(api)
    ensures var once := ConvertApi(api);
            ApiConverts(once) && (ConvertApi(once) == once <==> ApiSettles(api))
  {
    var once := ConvertApi(api);
    ConvertedConverts(api);
    ConvertedTop(api);
    ConvertedTop(once);
    FormatTwiceIff(Get(api, "property"), Get(api, "required"));
    forall k | k in CMD_KEYS + DATA_KEYS && api.Has(k)
      ensures once.Has(k) && once.fields[k] == ConvertEntries(k, api.fields[k])
      ensures ConvertApi(once).Has(k) && ConvertApi(once).fields[k] == ConvertEntries(k, once.fields[k])
      ensures ConvertEntries(k, once.fields[k]) == once.fields[k] <==> ListSettles(k, api.fields[k])
    {
      ConvertedLists(api, k);
      ConvertedLists(once, k);
      ListTwiceIff(k, api.fields[k]);
    }
    if ApiSettles(api) {
      forall k ensures k in ConvertLists(once) <==> k in ConvertLists(api) {
        if k in CMD_KEYS + DATA_KEYS {
          ConvertedLists(api, k);
        }
      }
      assert ConvertLists(once) == ConvertLists(api);
      SameApi(api, once);
    }
  }

  lemma ApiSettlesBySection(api: Json)
    requires ApiConverts(api)
    ensures ApiSettles(api) <==> forall path :: Settles(Section(api, path))
  {
    if ApiSettles(api) {
      forall path ensures Settles(Section(api, path)) {
        if !path.Top? && EntryAt(api, path.key, path.index) != Null {
          assert EntrySettles(path.key, Entries(api.fields[path.key]).value[path.index]);
        }
      }
    }
    if forall path :: Settles(Section(api, path)) {
      assert Settles(Section(api, Top));
      forall k, i: nat | k in CMD_KEYS + DATA_KEYS && api.Has(k) && i < |Entries(api.fields[k]).value|
        ensures EntrySettles(k, Entries(api.fields[k]).value[i])
      {
        assert Settles(Section(api, Entry(k, i)));
        assert Settles(Section(api, ResultOf(k, i)));
      }
    }
  }

  /** Upgrading a file a second time changes nothing exactly when the upgrade
      does nothing at all or every section settles: its property is an object,
      or it has neither a property nor a required list. */
  lemma {:induction false} UpgradeTwiceIff(manifest: Json)
    ensures Upgrade(Upgrade(manifest)) == Upgrade(manifest) <==>
      (IsTarget(manifest) && ApiConverts(manifest.fields["api"]) ==>
        forall path :: Settles(Section(manifest.fields["api"], path)))
  {
    if IsTarget(manifest) && ApiConverts(manifest.fields["api"]) {
      var api, once := manifest.fields["api"], Upgrade(manifest);
      ApiTwiceIff(api);
      ApiSettlesBySection(api);
      assert once.fields["api"] == ConvertApi(api);
      if once.fields["api"].fields == map[] {
        EmptyApi();
        assert once.fields["api"] == Obj(map[]);
      } else {
        assert IsTarget(once);
        assert Upgrade(once) == once.With("api", ConvertApi(ConvertApi(api)));
        if ConvertApi(ConvertApi(api)) == ConvertApi(api) {
          assert once.fields["api" := once.fields["api"]] == once.fields;
        } else {
          assert Upgrade(once).fields["api"] != once.fields["api"];
        }
      }
    }
  }

  lemma EmptyApi()
    ensures ApiConverts(Obj(map[])) && ConvertApi(Obj(map[])) == Obj(map[])
  {
    assert ConvertLists(Obj(map[])) == map[];
  }

  /** Only the api of a manifest is ever changed. */
  lemma RestOfManifestKept(manifest: Json)
    ensures manifest.Obj? ==> Upgrade(manifest).Obj? && Upgrade(manifest).fields - {"api"} == manifest.fields - {"api"}
    ensures !manifest.Obj? ==> Upgrade(manifest) == manifest
  {
    if IsTarget(manifest) && ApiConverts(manifest.fields["api"]) {
      assert Upgrade(manifest).fields - {"api"} == manifest.fields - {"api"};
    }
  }
}
