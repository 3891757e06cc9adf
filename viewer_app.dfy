/** The 3D model viewer: the model library and its upload path, loading a model into the
    scene, the measuring tool's points, markers and lines, the settings applied to the
    renderer, controls and lights, and page switching. Rendering, loaders and geometry are
    outside the model: a load's success is an input, and a picked point is given rather
    than computed by ray casting. */
module ViewerApp {
  import opened Js

  /** An entry of the model library. */
  datatype ModelEntry = ModelEntry(name: string, desc: string, icon: string, path: string, kind: string)

  /** The library shipped with the viewer. */
  const Library: seq<ModelEntry> := [
    ModelEntry("机械臂模型", "工业机器人手臂，包含6个自由度", "fas fa-robot", "assets/robot_arm.glb", "glb"),
    ModelEntry("跑车模型", "豪华跑车，详细内饰和外观", "fas fa-car", "assets/sport_car.glb", "glb"),
    ModelEntry("建筑模型", "现代商业大厦，包含内部结构", "fas fa-building", "assets/building.glb", "glb"),
    ModelEntry("奇幻生物", "龙形生物，高细节模型", "fas fa-dragon", "assets/dragon.glb", "glb")]

  const MaxUploadBytes: nat := 100 * 1024 * 1024

  /** The kinds loadModel has a loader for; any other kind shows the default box. */
  predicate HasLoader(kind: string) {
    kind in {"glb", "gltf", "obj", "fbx", "stl", "ply"}
  }

  /** The loader's name in a load failure's error tip; `glb` and `gltf` share one loader. */
  function LoaderLabel(kind: string): string {
    if kind == "glb" || kind == "gltf" then "GLTF"
    else if kind == "obj" then "OBJ"
    else if kind == "fbx" then "FBX"
    else if kind == "stl" then "STL"
    else "PLY"
  }

  // ------------------------------------------------------------ upload type

  /** The extensions the upload handler tests are the loader types with a dot in front. */
  lemma DottedKinds()
    ensures "." + "glb" == ".glb" && "." + "gltf" == ".gltf" && "." + "obj" == ".obj"
    ensures "." + "fbx" == ".fbx" && "." + "stl" == ".stl" && "." + "ply" == ".ply"
  {
  }

  /** The upload handler's extension test, as written: `.gltf`, `.obj`, `.fbx`, `.stl` and
      `.ply` name their type; everything else is refused, `.glb` included, although the
      type starts out as `glb`. */
  function UploadType(name: string): (r: Option<string>)
    ensures r.Some? ==> HasLoader(r.value) && EndsWith(name, "." + r.value)
    ensures r.None? <==> !(EndsWith(name, ".gltf") || EndsWith(name, ".obj") || EndsWith(name, ".fbx")
                           || EndsWith(name, ".stl") || EndsWith(name, ".ply"))
  {
    DottedKinds();
    if EndsWith(name, ".gltf") then Some("gltf")
    else if EndsWith(name, ".obj") then Some("obj")
    else if EndsWith(name, ".fbx") then Some("fbx")
    else if EndsWith(name, ".stl") then Some("stl")
    else if EndsWith(name, ".ply") then Some("ply")
    else None
  }

  /** The extension test with `.glb` accepted as the initial `glb` type. */
  function UploadTypeCorrected(name: string): (r: Option<string>)
    ensures r.Some? ==> HasLoader(r.value) && EndsWith(name, "." + r.value)
    ensures EndsWith(name, ".glb") ==> r == Some("glb")
    ensures !EndsWith(name, ".glb") ==> r == UploadType(name)
  {
    DottedKinds();
    if EndsWith(name, ".glb") then Some("glb") else UploadType(name)
  }

  lemma GlbSuffix(prefix: string)
    ensures EndsWith(prefix + ".glb", ".glb")
    ensures !EndsWith(prefix + ".glb", ".gltf") && !EndsWith(prefix + ".glb", ".obj") && !EndsWith(prefix + ".glb", ".fbx")
    ensures !EndsWith(prefix + ".glb", ".stl") && !EndsWith(prefix + ".glb", ".ply")
  {
    var s := prefix + ".glb";
    assert s[|s| - 4..] == ".glb";
    assert s[|s| - 1] == 'b';
  }

  /** Every model of the shipped library is a `.glb` file: uploading one of them is refused
      as written and accepted, with the library's own type, once corrected. */
  lemma {:induction false} LibraryFilesRefusedOnUpload(i: nat)
    requires i < |Library|
    ensures UploadType(Library[i].path).None?
    ensures UploadTypeCorrected(Library[i].path) == Some(Library[i].kind)
  {
    var stems := ["assets/robot_arm", "assets/sport_car", "assets/building", "assets/dragon"];
    assert Library[i].path == stems[i] + ".glb";
    GlbSuffix(stems[i]);
  }

  // ------------------------------------------------------------ the viewer

  /** What the current model is: a loaded asset or the default box. */
  datatype Model = Asset(path: string, kind: string) | DefaultBox

  /** A file chosen in the upload input. */
  datatype File = File(name: string, size: nat)

  class Viewer {
    var models: seq<ModelEntry>
    var current: Option<Model>
    /** The models present in the scene (lights, ground and helpers left aside). */
    var sceneModels: seq<Model>
    /** The error tips shown, in order. */
    var errors: seq<string>
    /** Which entry of the model list is marked active. */
    var activeItem: nat

    /** The scene holds exactly the current model, if any. */
    ghost predicate Valid()
      reads this
    {
      sceneModels == (if current.Some? then [current.value] else [])
      && activeItem < |models|
      && |Library| <= |models| && models[..|Library|] == Library
    }

    constructor()
      ensures Valid()
      ensures models == Library && current.None? && sceneModels == [] && errors == [] && activeItem == 0
    {
      models, current, sceneModels, errors, activeItem := Library, None, [], [], 0;
    }

    /** loadModel: the current model leaves the scene first; a kind with a loader brings in
        the loaded asset, or shows the loader's error when loading fails (`failure` is the
        loader's message); any other kind brings in the default box. */
    method LoadModel(path: string, kind: string, loads: bool, failure: string)
      requires Valid()
      modifies this
      ensures Valid()
      ensures old(current).Some? ==> old(current).value !in sceneModels || current == old(current)
      ensures HasLoader(kind) && loads ==> current == Some(Asset(path, kind))
      ensures HasLoader(kind) && !loads ==> current.None? && errors == old(errors) + [LoaderLabel(kind) + "模型加载失败: " + failure]
      ensures !HasLoader(kind) ==> current == Some(DefaultBox)
      ensures !(HasLoader(kind) && !loads) ==> errors == old(errors)
      ensures models == old(models) && activeItem == old(activeItem)
    {
      current := None;
      sceneModels := [];
      if HasLoader(kind) {
        if loads {
          current := Some(Asset(path, kind));
          sceneModels := [Asset(path, kind)];
        } else {
          errors := errors + [LoaderLabel(kind) + "模型加载失败: " + failure];
        }
      } else {
        current := Some(DefaultBox);
        sceneModels := [DefaultBox];
      }
    }

    /** A click on entry i of the model list: it alone is marked active and its model is
        loaded. */
    method SelectModel(i: nat, loads: bool, failure: string)
      requires Valid() && i < |models|
      modifies this
      ensures Valid()
      ensures activeItem == i && models == old(models)
      ensures HasLoader(models[i].kind) && loads ==> current == Some(Asset(models[i].path, models[i].kind))
      ensures HasLoader(models[i].kind) && !loads ==>
        current.None? && errors == old(errors) + [LoaderLabel(models[i].kind) + "模型加载失败: " + failure]
      ensures !HasLoader(models[i].kind) ==> current == Some(DefaultBox)
      ensures !(HasLoader(models[i].kind) && !loads) ==> errors == old(errors)
    {
      activeItem := i;
      LoadModel(models[i].path, models[i].kind, loads, failure);
    }

    /** The upload input's change handler: nothing without a file; a file over 100 MiB or of
        an unrecognised type shows an error and changes nothing else; an accepted file is
        loaded from its object url and appended to the library, which is then redrawn with
        its first entry active. */
    method Upload(file: Option<File>, url: string, loads: bool, failure: string) returns (accepted: bool)
      requires Valid()
      modifies this
      ensures Valid()
      ensures accepted <==> file.Some? && file.value.size <= MaxUploadBytes && UploadType(file.value.name).Some?
      ensures !accepted ==> models == old(models) && current == old(current) && activeItem == old(activeItem)
      ensures file.None? ==> errors == old(errors)
      ensures file.Some? && file.value.size > MaxUploadBytes ==> errors == old(errors) + ["文件过大，最大支持100MB"]
      ensures file.Some? && file.value.size <= MaxUploadBytes && UploadType(file.value.name).None? ==>
        errors == old(errors) + ["暂不支持该格式"]
      ensures accepted ==>
        var kind := UploadType(file.value.name).value;
        && models == old(models) + [ModelEntry(file.value.name, "用户上传", "fas fa-cube", url, kind)]
        && (loads ==> current == Some(Asset(url, kind)) && errors == old(errors))
        && (!loads ==> current.None? && errors == old(errors) + [LoaderLabel(kind) + "模型加载失败: " + failure])
        && activeItem == 0
    {
      accepted := false;
      if file.None? {
        return;
      }
      var f := file.value;
      if f.size > MaxUploadBytes {
        errors := errors + ["文件过大，最大支持100MB"];
        return;
      }
      var kind := UploadType(f.name);
      if kind.None? {
        errors := errors + ["暂不支持该格式"];
        return;
      }
      LoadModel(url, kind.value, loads, failure);
      models := models + [ModelEntry(f.name, "用户上传", "fas fa-cube", url, kind.value)];
      activeItem := 0;
      accepted := true;
    }
  }

  /** Building the scene loads the first library model: when its loader succeeds the robot
      arm is the one model in the scene. */
  method OpenScene(loads: bool, failure: string) returns (v: Viewer)
    ensures fresh(v) && v.Valid()
    ensures loads ==> v.current == Some(Asset("assets/robot_arm.glb", "glb")) && v.errors == []
    ensures !loads ==> v.current.None? && v.errors == ["GLTF模型加载失败: " + failure]
  {
    v := new Viewer();
    assert LoaderLabel("glb") + "模型加载失败: " == "GLTF模型加载失败: ";
    v.LoadModel(v.models[0].path, v.models[0].kind, loads, failure);
  }

  // ------------------------------------------------------------ measuring

  datatype Point = Point(x: real, y: real, z: real)

  /** The measuring tool: picked points, a marker sphere per point, a line between each
      pair of consecutive picks, and the distance panel. */
  class MeasureTool {
    var active: bool
    var points: seq<Point>
    /** The positions of the marker spheres in the scene. */
    var spheres: seq<Point>
    /** Every line drawn, oldest first. */
    var lines: seq<(Point, Point)>
    /** How many times the distance panel was shown. */
    var panelShows: nat

    /** One marker per point, and the latest lines join the current points in order. */
    ghost predicate Valid()
      reads this
    {
      spheres == points
      && |points| <= |lines| + 1
      && forall i :: 0 <= i < |points| - 1 ==> lines[|lines| - (|points| - 1) + i] == (points[i], points[i + 1])
    }

    constructor()
      ensures Valid()
      ensures !active && points == [] && spheres == [] && lines == [] && panelShows == 0
    {
      active, points, spheres, lines, panelShows := false, [], [], [], 0;
    }

    /** A click on the canvas: ignored while inactive or when nothing is hit; otherwise the
        hit point is recorded with its marker, and from the second point on a line joins it
        to the previous one and the distance is shown. */
    method OnClick(hit: Option<Point>)
      requires Valid()
      modifies this
      ensures Valid()
      ensures !old(active) || hit.None? ==>
        points == old(points) && lines == old(lines) && panelShows == old(panelShows)
      ensures old(active) && hit.Some? ==>
        && points == old(points) + [hit.value]
        && (|points| >= 2 ==> lines == old(lines) + [(points[|points| - 2], points[|points| - 1])] && panelShows == old(panelShows) + 1)
        && (|points| < 2 ==> lines == old(lines) && panelShows == old(panelShows))
      ensures active == old(active)
    {
      if !active || hit.None? {
        return;
      }
      var p := hit.value;
      points := points + [p];
      spheres := spheres + [p];
      if |points| >= 2 {
        lines := lines + [(points[|points| - 2], points[|points| - 1])];
        panelShows := panelShows + 1;
      }
    }

    /** setActive: switching off forgets the points and takes the markers out of the
        scene; switching on only sets the flag. Lines already drawn stay. */
    method SetActive(val: bool)
      requires Valid()
      modifies this
      ensures Valid()
      ensures active == val && lines == old(lines) && panelShows == old(panelShows)
      ensures !val ==> points == [] && spheres == []
      ensures val ==> points == old(points) && spheres == old(spheres)
    {
      active := val;
      if !val {
        points := [];
        spheres := [];
      }
    }
  }

  /** Three clicks while active draw two lines and show the distance twice; switching the
      tool off and on again starts a fresh series. */
  method MeasureThreePoints(a: Point, b: Point, c: Point) returns (lines: seq<(Point, Point)>, shows: nat, kept: nat)
    ensures lines == [(a, b), (b, c)] && shows == 2 && kept == 0
  {
    var t := new MeasureTool();
    t.SetActive(true);
    t.OnClick(Some(a));
    t.OnClick(Some(b));
    t.OnClick(Some(c));
    t.SetActive(false);
    t.SetActive(true);
    lines, shows, kept := t.lines, t.panelShows, |t.points|;
  }

  // ------------------------------------------------------------ settings

  /** Rotate and zoom speed for the control setting. */
  function ControlSpeed(control: string): (r: real)
    ensures control == "fast" ==> r == 1.5
    ensures control == "slow" ==> r == 0.5
    ensures control != "fast" && control != "slow" ==> r == 1.0
  {
    if control == "fast" then 1.5 else if control == "slow" then 0.5 else 1.0
  }

  /** Ambient and directional intensity for the light setting. */
  function LightIntensities(light: string): (r: (real, real))
    ensures light == "bright" ==> r == (1.0, 1.2)
    ensures light == "soft" ==> r == (0.3, 0.5)
    ensures light != "bright" && light != "soft" ==> r == (0.6, 0.8)
  {
    if light == "bright" then (1.0, 1.2) else if light == "soft" then (0.3, 0.5) else (0.6, 0.8)
  }

  /** Pixel ratio for the render setting. */
  function PixelRatio(render: string, devicePixelRatio: real): (r: real)
    ensures render == "high" ==> r == devicePixelRatio
    ensures render == "medium" ==> r == 1.2
    ensures render != "high" && render != "medium" ==> r == 1.0
  {
    if render == "high" then devicePixelRatio else if render == "medium" then 1.2 else 1.0
  }

  /** Whatever the settings, the directional light is brighter than the ambient one, the
      control speed is one of three values, and the standard light setting reproduces the
      intensities the scene is created with. */
  lemma SettingsRanges(control: string, light: string)
    ensures ControlSpeed(control) in {0.5, 1.0, 1.5}
    ensures LightIntensities(light).0 < LightIntensities(light).1
    ensures LightIntensities("normal") == (0.6, 0.8)
  {
  }

  /** The part of the scene applySettings adjusts. */
  class SceneControls {
    var pixelRatio: real
    var rotateSpeed: real
    var zoomSpeed: real
    var ambient: real
    var directional: real

    /** The scene as init3DScene creates it. */
    constructor(devicePixelRatio: real)
      ensures pixelRatio == devicePixelRatio && ambient == 0.6 && directional == 0.8
    {
      pixelRatio, rotateSpeed, zoomSpeed, ambient, directional := devicePixelRatio, 1.0, 1.0, 0.6, 0.8;
    }

    /** applySettings with the current values of the render, control and light settings. */
    method ApplySettings(render: string, control: string, light: string, devicePixelRatio: real)
      modifies this
      ensures pixelRatio == PixelRatio(render, devicePixelRatio)
      ensures rotateSpeed == zoomSpeed == ControlSpeed(control)
      ensures (ambient, directional) == LightIntensities(light)
    {
      if render == "high" {
        pixelRatio := devicePixelRatio;
      } else if render == "medium" {
        pixelRatio := 1.2;
      } else {
        pixelRatio := 1.0;
      }
      rotateSpeed := if control == "fast" then 1.5 else if control == "slow" then 0.5 else 1.0;
      zoomSpeed := if control == "fast" then 1.5 else if control == "slow" then 0.5 else 1.0;
      ambient := if light == "bright" then 1.0 else if light == "soft" then 0.3 else 0.6;
      directional := if light == "bright" then 1.2 else if light == "soft" then 0.5 else 0.8;
    }
  }

  /** The shipped default settings (high, normal, normal) applied right after the scene is
      built leave the lights as they were created. */
  method DefaultsKeepInitialLights(devicePixelRatio: real) returns (ambient: real, directional: real, pixelRatio: real)
    ensures ambient == 0.6 && directional == 0.8 && pixelRatio == devicePixelRatio
  {
    var s := new SceneControls(devicePixelRatio);
    s.ApplySettings("high", "normal", "normal", devicePixelRatio);
    ambient, directional, pixelRatio := s.ambient, s.directional, s.pixelRatio;
  }

  // ------------------------------------------------------------ pages

  /** showPage: the start page is hidden, the main and settings pages lose `active`, the
      requested page gains it, and asking for the main page builds the 3D scene. */
  class Pages {
    var startHidden: bool
    var active: set<string>

    constructor()
      ensures !startHidden && active == {}
    {
      startHidden, active := false, {};
    }

    method ShowPage(pageId: string) returns (buildsScene: bool)
      modifies this
      ensures startHidden
      ensures active == old(active) - {"main-page", "settings-page"} + (if pageId != "" then {pageId} else {})
      ensures buildsScene <==> pageId == "main-page"
    {
      startHidden := true;
      active := active - {"main-page", "settings-page"};
      buildsScene := false;
      if pageId != "" {
        active := active + {pageId};
        if pageId == "main-page" {
          buildsScene := true;
        }
      }
    }
  }

  /** At most one of the main and settings pages is active after any page switch. */
  method SwitchPages(first: string, second: string) returns (mainActive: bool, settingsActive: bool)
    ensures !(mainActive && settingsActive)
    ensures mainActive <==> second == "main-page"
  {
    var p := new Pages();
    var _ := p.ShowPage(first);
    var _ := p.ShowPage(second);
    mainActive, settingsActive := "main-page" in p.active, "settings-page" in p.active;
  }
}
