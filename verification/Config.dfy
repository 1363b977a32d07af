// Layers and their zoom ranges (src/config.rs).

module Config {
  import opened Options

  datatype LayerConfig = LayerConfig(
    name: string,
    minZoom: Option<nat>,
    maxZoom: Option<nat>,
    generateLabelPoints: bool,
    labelPointColumn: bool,
    generateBoundaryLines: bool)

  datatype SourceConfig = SourceConfig(name: string, minZoom: nat, maxZoom: nat, layers: seq<LayerConfig>)

  datatype Derived = LabelPoint | BoundaryLine

  // One layer inside a tile: a configured layer, or one derived from it.
  datatype TileLayer = TileLayer(name: string, layer: LayerConfig, derived: Option<Derived>)

  // ------------------------------------------------------------- zoom ranges

  function LayerMinZoom(s: SourceConfig, l: LayerConfig): nat {
    if l.minZoom.Some? then l.minZoom.value else s.minZoom
  }

  function LayerMaxZoom(s: SourceConfig, l: LayerConfig): nat {
    if l.maxZoom.Some? then l.maxZoom.value else s.maxZoom
  }

  predicate LayerAppliesAtZoom(s: SourceConfig, l: LayerConfig, z: nat) {
    LayerMinZoom(s, l) <= z <= LayerMaxZoom(s, l)
  }

  datatype ZoomError =
    | MinZoomOutside(layer: nat)
    | MaxZoomOutside(layer: nat)
    | MinAboveMax(layer: nat)

  // A layer that is encoded at some zoom, and only at zooms of the source.
  ghost predicate Encodable(s: SourceConfig, l: LayerConfig) {
    && (exists z: nat :: LayerAppliesAtZoom(s, l, z))
    && forall z: nat :: LayerAppliesAtZoom(s, l, z) ==> s.minZoom <= z <= s.maxZoom
  }

  // What is wrong with a layer's range, in the order of the checks.
  function LayerFault(s: SourceConfig, l: LayerConfig, i: nat): (fault: Option<ZoomError>) {
    if l.minZoom.Some? && !(s.minZoom <= l.minZoom.value <= s.maxZoom) then Some(MinZoomOutside(i))
    else if l.maxZoom.Some? && !(s.minZoom <= l.maxZoom.value <= s.maxZoom) then Some(MaxZoomOutside(i))
    else if LayerMinZoom(s, l) > LayerMaxZoom(s, l) then Some(MinAboveMax(i))
    else None
  }

  lemma FaultlessIsEncodable(s: SourceConfig, l: LayerConfig, i: nat)
    ensures LayerFault(s, l, i).None? <==> Encodable(s, l)
  {
    if LayerMinZoom(s, l) <= LayerMaxZoom(s, l) {
      assert LayerAppliesAtZoom(s, l, LayerMinZoom(s, l));
      assert LayerAppliesAtZoom(s, l, LayerMaxZoom(s, l));
    }
  }

  // `validate_layer_zooms`: passes exactly when every layer is encoded at some
  // zoom and at none outside the source; else names the first faulty layer.
  method ValidateLayerZooms(s: SourceConfig) returns (fault: Option<ZoomError>)
    ensures fault.None? <==> forall i :: 0 <= i < |s.layers| ==> Encodable(s, s.layers[i])
    ensures fault.Some? ==> fault.value.layer < |s.layers| && (var l := s.layers[fault.value.layer];
      match fault.value
      case MinZoomOutside(_) => l.minZoom.Some? && !(s.minZoom <= l.minZoom.value <= s.maxZoom)
      case MaxZoomOutside(_) =>
        l.maxZoom.Some? && !(s.minZoom <= l.maxZoom.value <= s.maxZoom) && (l.minZoom.Some? ==> s.minZoom <= l.minZoom.value <= s.maxZoom)
      case MinAboveMax(_) =>
        (if l.minZoom.Some? then l.minZoom.value else s.minZoom) > (if l.maxZoom.Some? then l.maxZoom.value else s.maxZoom))
    ensures fault.Some? ==> forall i :: 0 <= i < fault.value.layer ==> Encodable(s, s.layers[i])
  {
    var i := 0;
    while i < |s.layers|
      invariant 0 <= i <= |s.layers|
      invariant forall j :: 0 <= j < i ==> Encodable(s, s.layers[j])
    {
      var layer := s.layers[i];
      FaultlessIsEncodable(s, layer, i);
      var min, max := LayerMinZoom(s, layer), LayerMaxZoom(s, layer);
      if layer.minZoom.Some? {
        if layer.minZoom.value < s.minZoom || layer.minZoom.value > s.maxZoom { return Some(MinZoomOutside(i)); }
      }
      if layer.maxZoom.Some? {
        if layer.maxZoom.value < s.minZoom || layer.maxZoom.value > s.maxZoom { return Some(MaxZoomOutside(i)); }
      }
      if min > max { return Some(MinAboveMax(i)); }
      i := i + 1;
    }
    fault := None;
  }

  // ------------------------------------------------------------- tile layers

  function LabelsName(l: LayerConfig): string { l.name + "_labels" }

  function BoundaryName(l: LayerConfig): string { l.name + "_boundary" }

  // A layer and what is derived from it, in encoding order.
  function Family(l: LayerConfig): seq<TileLayer> {
    [TileLayer(l.name, l, None)]
    + (if l.generateLabelPoints then [TileLayer(LabelsName(l), l, Some(LabelPoint))] else [])
    + (if l.generateBoundaryLines then [TileLayer(BoundaryName(l), l, Some(BoundaryLine))] else [])
  }

  function FamiliesAtZoom(s: SourceConfig, z: nat, k: nat): seq<TileLayer>
    requires k <= |s.layers|
  {
    if k == 0 then []
    else FamiliesAtZoom(s, z, k - 1) + (if LayerAppliesAtZoom(s, s.layers[k - 1], z) then Family(s.layers[k - 1]) else [])
  }

  function TileLayersAtZoom(s: SourceConfig, z: nat): seq<TileLayer> {
    FamiliesAtZoom(s, z, |s.layers|)
  }

  method ListTileLayers(s: SourceConfig, z: nat) returns (out: seq<TileLayer>)
    ensures out == TileLayersAtZoom(s, z)
  {
    out := [];
    var i := 0;
    while i < |s.layers|
      invariant 0 <= i <= |s.layers|
      invariant out == FamiliesAtZoom(s, z, i)
    {
      var layer := s.layers[i];
      if LayerAppliesAtZoom(s, layer, z) {
        out := PushFamily(out, layer);
      }
      i := i + 1;
    }
  }

  method PushFamily(before: seq<TileLayer>, layer: LayerConfig) returns (out: seq<TileLayer>)
    ensures out == before + Family(layer)
  {
    out := before + [TileLayer(layer.name, layer, None)];
    if layer.generateLabelPoints {
      out := out + [TileLayer(LabelsName(layer), layer, Some(LabelPoint))];
    }
    if layer.generateBoundaryLines {
      out := out + [TileLayer(BoundaryName(layer), layer, Some(BoundaryLine))];
    }
  }

  lemma {:induction false} FamilyAtZoom(s: SourceConfig, z: nat, k: nat, tl: TileLayer)
    requires k <= |s.layers|
    ensures tl in FamiliesAtZoom(s, z, k) <==>
      tl.layer in s.layers[..k] && LayerAppliesAtZoom(s, tl.layer, z) && tl in Family(tl.layer)
  {
    if k > 0 {
      FamilyAtZoom(s, z, k - 1, tl);
      assert s.layers[..k] == s.layers[..k - 1] + [s.layers[k - 1]];
    }
  }

  // A tile layer is encoded exactly when it belongs to a layer of the source
  // whose range holds the zoom: derived layers follow their parent.
  lemma EncodedLayers(s: SourceConfig, z: nat, tl: TileLayer)
    ensures tl in TileLayersAtZoom(s, z) <==>
      tl.layer in s.layers && LayerAppliesAtZoom(s, tl.layer, z) && tl in Family(tl.layer)
  {
    FamilyAtZoom(s, z, |s.layers|, tl);
    assert s.layers[..|s.layers|] == s.layers;
  }

  // Which those are, and from which zoom to which, in full: a layer under its own name,
  // its label points and its boundary lines under the derived ones.
  lemma TileLayersMeaning(s: SourceConfig, z: nat, tl: TileLayer)
    ensures tl in TileLayersAtZoom(s, z) <==>
      && tl.layer in s.layers
      && (if tl.layer.minZoom.Some? then tl.layer.minZoom.value else s.minZoom) <= z
      && z <= (if tl.layer.maxZoom.Some? then tl.layer.maxZoom.value else s.maxZoom)
      && (match tl.derived
          case None => tl.name == tl.layer.name
          case Some(LabelPoint) => tl.layer.generateLabelPoints && tl.name == tl.layer.name + "_labels"
          case Some(BoundaryLine) => tl.layer.generateBoundaryLines && tl.name == tl.layer.name + "_boundary")
  {
    EncodedLayers(s, z, tl);
  }

  // ------------------------------------------------------------- routing

  predicate Named(l: LayerConfig, name: string) {
    l.name == name
    || (l.generateLabelPoints && LabelsName(l) == name)
    || (l.generateBoundaryLines && BoundaryName(l) == name)
  }

  predicate Owns(s: SourceConfig, name: string) {
    exists l :: l in s.layers && Named(l, name)
  }

  // The names a source answers to: its layers', and those of what is derived from them.
  lemma OwnsMeaning(s: SourceConfig, name: string)
    ensures Owns(s, name) <==> exists l :: (l in s.layers &&
      (name == l.name || (l.generateLabelPoints && name == l.name + "_labels") || (l.generateBoundaryLines && name == l.name + "_boundary")))
  {
    forall l ensures Named(l, name) <==>
      name == l.name || (l.generateLabelPoints && name == l.name + "_labels") || (l.generateBoundaryLines && name == l.name + "_boundary")
    {}
  }

  // `find_source_for_layer`: the first source that owns the name.
  function FindSourceForLayer(sources: seq<SourceConfig>, name: string): (found: Option<nat>)
    ensures found.Some? ==> found.value < |sources| && Owns(sources[found.value], name)
    ensures found.Some? ==> forall i :: 0 <= i < found.value ==> !Owns(sources[i], name)
    ensures found.None? ==> forall s :: s in sources ==> !Owns(s, name)
  {
    if sources == [] then None
    else if Owns(sources[0], name) then Some(0)
    else
      var rest := FindSourceForLayer(sources[1..], name);
      assert sources == [sources[0]] + sources[1..];
      if rest.None? then None else Some(rest.value + 1)
  }

  // `find_layer`: the first layer of exactly that name.
  function FindLayer(layers: seq<LayerConfig>, name: string): (found: Option<LayerConfig>)
    ensures found.Some? ==> found.value in layers && found.value.name == name
    ensures found.None? ==> forall l :: l in layers ==> l.name != name
  {
    if layers == [] then None
    else if layers[0].name == name then Some(layers[0])
    else
      assert layers == [layers[0]] + layers[1..];
      FindLayer(layers[1..], name)
  }

  lemma {:induction false} FindLayerIsFirst(layers: seq<LayerConfig>, name: string, i: nat)
    requires i < |layers| && layers[i].name == name && forall j :: 0 <= j < i ==> layers[j].name != name
    ensures FindLayer(layers, name) == Some(layers[i])
  {
    if i > 0 { FindLayerIsFirst(layers[1..], name, i - 1); }
  }

  // No two layers of a source answer to one name.
  ghost predicate NamesApart(s: SourceConfig) {
    forall l, m, name :: l in s.layers && m in s.layers && Named(l, name) && Named(m, name) ==> l == m
  }

  // Then, in any tile, a name stands for one tile layer ...
  lemma OneTileLayer(s: SourceConfig, tl: TileLayer, other: TileLayer)
    requires NamesApart(s) && tl.layer in s.layers && other.layer in s.layers
    requires tl in Family(tl.layer) && other in Family(other.layer) && tl.name == other.name
    ensures tl == other
  {
    assert Named(tl.layer, tl.name) && Named(other.layer, tl.name);
    var l := tl.layer;
    assert |LabelsName(l)| == |l.name| + 7 && |BoundaryName(l)| == |l.name| + 9;
  }

  // ... and a layer's own name for the layer itself.
  lemma NamedItself(s: SourceConfig, l: LayerConfig, tl: TileLayer)
    requires NamesApart(s) && l in s.layers && tl.layer in s.layers && tl in Family(tl.layer) && tl.name == l.name
    ensures tl == TileLayer(l.name, l, None)
  {
    OneTileLayer(s, TileLayer(l.name, l, None), tl);
  }

  ghost predicate SourcesApart(sources: seq<SourceConfig>) {
    forall i, j, name :: 0 <= i < |sources| && 0 <= j < |sources| && Owns(sources[i], name) && Owns(sources[j], name) ==> i == j
  }

  // With sources apart a name is routed to the one source that owns it ...
  lemma RoutedToOwner(sources: seq<SourceConfig>, i: nat, name: string)
    requires i < |sources| && SourcesApart(sources) && Owns(sources[i], name)
    ensures FindSourceForLayer(sources, name) == Some(i)
  {
    hide Owns;
  }

  // ... and there, with names apart, to the layer of that name ...
  lemma LayerIsFound(s: SourceConfig, l: LayerConfig)
    requires NamesApart(s) && l in s.layers
    ensures Owns(s, l.name) && FindLayer(s.layers, l.name) == Some(l)
  {
    hide LabelsName, BoundaryName;
    assert Named(l, l.name);
    var found := FindLayer(s.layers, l.name);
    if found.Some? { assert Named(found.value, l.name); }
  }

  // ... while a derived layer's name finds no layer: its notifications are dropped.
  lemma DerivedIsNotFound(s: SourceConfig, l: LayerConfig, name: string)
    requires NamesApart(s) && l in s.layers && Named(l, name) && name != l.name
    ensures Owns(s, name) && FindLayer(s.layers, name) == None
  {
    hide LabelsName, BoundaryName;
    forall m | m in s.layers && Named(m, name) ensures m == l {}
    var found := FindLayer(s.layers, name);
    assert found.Some? ==> Named(found.value, name);
  }
}
