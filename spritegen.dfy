/**
 * The sprite generator object: its settings, the guard of `execute`, and the
 * loop that builds one directory's package from the directory listing.
 */
module SpriteGenerator {
  import opened Wrappers
  import opened ImageFilter
  import opened Naming
  import opened Layout

  /** The option values the generator can be handed; numbers are integers here. */
  datatype JsValue = Undefined | Null | Bool(b: bool) | Number(n: int) | Str(s: string)

  /** JavaScript truthiness of an option value. */
  predicate Truthy(v: JsValue)
  {
    match v
    case Undefined => false
    case Null => false
    case Bool(b) => b
    case Number(n) => n != 0
    case Str(s) => s != []
  }

  /** The settings used for every option that is not given. */
  const DefaultSettings: map<string, JsValue> :=
    map["dir" := Null, "padding" := Number(2), "verbose" := Bool(false)]

  /**
   * The defaults extended by the options object: every key the options hold
   * replaces its default, whatever its value, even `undefined`.
   */
  function Settings(options: map<string, JsValue>): (s: map<string, JsValue>)
    ensures "dir" in s && "padding" in s && "verbose" in s
    ensures forall k :: k in options ==> k in s && s[k] == options[k]
  {
    DefaultSettings + options
  }

  /** No options: no root directory, padding 2, quiet. */
  lemma NoOptionsGiveDefaults()
    ensures Settings(map[])["dir"] == Null
    ensures Settings(map[])["padding"] == Number(2)
    ensures Settings(map[])["verbose"] == Bool(false)
  {
    assert Settings(map[]) == DefaultSettings;
  }

  /** Options override only the keys they hold. */
  lemma OptionsOverride(options: map<string, JsValue>, key: string)
    requires key in DefaultSettings
    ensures Settings(options)[key] == if key in options then options[key] else DefaultSettings[key]
  {
  }

  /** A key present with the value `undefined` still replaces its default. */
  lemma UndefinedPaddingOverrides()
    ensures Settings(map["padding" := Undefined])["padding"] == Undefined
  {
  }

  /** Why `execute` refuses to run. */
  datatype ExecuteError =
    | DirRequired     // the root directory option is missing or falsy: "options.dir is required."
    | DirNotAString   // a truthy root directory that is not a path string

  /** The guard of `execute`: a falsy root directory is refused before anything is read. */
  function CheckRootDir(rootDir: JsValue): (r: Result<string, ExecuteError>)
    ensures r.Success? <==> rootDir.Str? && rootDir.s != []
    ensures r.Success? ==> r.value == rootDir.s
    ensures r == Failure(DirRequired) <==> !Truthy(rootDir)
  {
    if !Truthy(rootDir) then Failure(DirRequired)
    else if !rootDir.Str? then Failure(DirNotAString)
    else Success(rootDir.s)
  }

  /** The directory listing entry an image of a package came from. */
  function SourceOf(image: ImageInfo): FolderItem
  {
    File(image.name, image.width, image.height)
  }

  /** The listing entries the images of a package came from, in package order. */
  function Sources(images: seq<ImageInfo>): (r: seq<FolderItem>)
    ensures |r| == |images|
    ensures forall k :: 0 <= k < |images| ==> r[k] == SourceOf(images[k])
  {
    if images == [] then []
    else
      var front := images[..|images| - 1];
      assert forall k :: 0 <= k < |front| ==> images[k] == front[k];
      Sources(front) + [SourceOf(images[|images| - 1])]
  }

  lemma SourcesPush(images: seq<ImageInfo>, info: ImageInfo)
    ensures Sources(images + [info]) == Sources(images) + [SourceOf(info)]
  {
    assert (images + [info])[..|images|] == images;
  }

  /** A padding the layout arithmetic is defined for. */
  predicate IsPadding(v: JsValue)
  {
    v.Number? && v.n >= 0
  }

  /** A directory holding only the output of an earlier run contributes no image. */
  lemma PriorOutputIgnored(w: nat, h: nat)
    ensures SourceImages([File("sprite.png", w, h), File("sprite.css", 0, 0)]) == []
  {
    var png, css := File("sprite.png", w, h), File("sprite.css", 0, 0);
    assert !IsSourceImage(png) by { SpriteOutputIsNotAnImage(); }
    assert !IsSourceImage(css) by { StylesheetIsNotAnImage(); }
    SourceImagesSkip([], png);
    SourceImagesSkip([png], css);
    assert [png] + [css] == [png, css];
  }

  /**
   * Handles one directory entry of the package being built: a subdirectory
   * is left to its own visit, an image file is stacked below the package's
   * images, and any other file is skipped.
   */
  method AddFolderItem(pkg: SpritePackage, item: FolderItem, padding: nat)
    requires pkg.Valid(padding)
    modifies pkg
    ensures pkg.Valid(padding)
    ensures pkg.path == old(pkg.path)
    ensures IsSourceImage(item) ==>
      pkg.images == old(pkg.images) + [ImageInfo(item.name, item.width, item.height, 0, old(pkg.height) + padding)]
    ensures !IsSourceImage(item) ==> unchanged(pkg)
    ensures Sources(pkg.images) == Sources(old(pkg.images)) + if IsSourceImage(item) then [item] else []
  {
    if item.Directory? {
      // The recursive visit of the subdirectory builds packages of its own.
    } else if IsImageFile(item.name) {
      ghost var before := pkg.images;
      pkg.AddImage(item.name, item.width, item.height, padding);
      SourcesPush(before, pkg.images[|before|]);
    }
  }

  /** Goes through a directory listing in order, handling each entry. */
  method FillPackage(pkg: SpritePackage, items: seq<FolderItem>, padding: nat)
    requires pkg.Valid(padding) && pkg.images == []
    modifies pkg
    ensures pkg.Valid(padding) && pkg.path == old(pkg.path)
    ensures Sources(pkg.images) == SourceImages(items)
  {
    for i := 0 to |items|
      invariant pkg.path == old(pkg.path)
      invariant pkg.Valid(padding)
      invariant Sources(pkg.images) == SourceImages(items[..i])
    {
      var item := items[i];
      assert items[..i + 1][..i] == items[..i];
      AddFolderItem(pkg, item, padding);
    }
    assert items[..|items|] == items;
  }

  class SpriteGen {
    var rootDir: JsValue
    var verbose: JsValue
    var imagePadding: JsValue

    /** A generator configured by `options` over the defaults. */
    constructor (options: map<string, JsValue>)
      ensures rootDir == Settings(options)["dir"]
      ensures verbose == Settings(options)["verbose"]
      ensures imagePadding == Settings(options)["padding"]
    {
      var settings := Settings(options);
      rootDir := settings["dir"];
      verbose := settings["verbose"];
      imagePadding := settings["padding"];
    }

    /**
     * Builds the package of directory `dir`, whose path relative to the root
     * is `relative` and whose entries are `items`, in listing order.
     * Subdirectories add nothing to this package; each image file is stacked
     * below the previous one. `found` tells whether the package is rendered.
     */
    method CreateSpritePackages(dir: string, relative: string, items: seq<FolderItem>)
      returns (pkg: SpritePackage, found: bool)
      requires IsPadding(imagePadding)
      ensures fresh(pkg)
      ensures pkg.dir == dir && pkg.path == Namespace(relative)
      ensures pkg.Valid(imagePadding.n)
      ensures Sources(pkg.images) == SourceImages(items)
      ensures found <==> exists x :: x in items && IsSourceImage(x)
    {
      pkg := new SpritePackage(dir, Namespace(relative));
      FillPackage(pkg, items, imagePadding.n);
      found := |pkg.images| > 0;
      SourceImagesExact(items);
      if found {
        assert SourceImages(items)[0] in items;
      }
    }

    /**
     * Runs the generator on the root directory: refuses a missing root,
     * otherwise takes the resolved root `resolvedRoot` and builds its package
     * from its listing `rootItems`, with the empty namespace.
     */
    method Execute(resolvedRoot: string, rootItems: seq<FolderItem>)
      returns (r: Result<SpritePackage, ExecuteError>)
      requires CheckRootDir(rootDir).Success? ==> IsPadding(imagePadding)
      modifies this
      ensures imagePadding == old(imagePadding) && verbose == old(verbose)
      ensures CheckRootDir(old(rootDir)).Failure? ==>
        r == Failure(CheckRootDir(old(rootDir)).error) && rootDir == old(rootDir)
      ensures !Truthy(old(rootDir)) ==> r == Failure(DirRequired)
      ensures CheckRootDir(old(rootDir)).Success? ==>
        rootDir == Str(resolvedRoot) && r.Success? && fresh(r.value) &&
        r.value.dir == resolvedRoot && r.value.path == [] &&
        r.value.Valid(imagePadding.n) && Sources(r.value.images) == SourceImages(rootItems)
    {
      var checked := CheckRootDir(rootDir);
      if checked.Failure? {
        return Failure(checked.error);
      }
      rootDir := Str(resolvedRoot);
      NamespaceShape([]);
      var pkg, found := CreateSpritePackages(resolvedRoot, [], rootItems);
      r := Success(pkg);
    }
  }
}
