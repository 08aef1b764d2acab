/**
 * The per-directory sprite package: qualifying images are stacked top to
 * bottom in directory order, each one padding below the previous, and one
 * CSS rule is recorded per image.
 */
module Layout {
  import opened ImageFilter
  import opened Naming
  import opened Tokens

  /** One entry of a directory listing; a file carries its decoded pixel size. */
  datatype FolderItem = Directory(name: string) | File(name: string, width: nat, height: nat)

  /** An image of a package with its place in the composite. */
  datatype ImageInfo = ImageInfo(name: string, width: nat, height: nat, left: nat, top: nat)

  /** A directory entry that the generator draws into the package. */
  predicate IsSourceImage(item: FolderItem)
  {
    item.File? && IsImageFile(item.name)
  }

  /** The source images of a listing, in listing order. */
  function SourceImages(items: seq<FolderItem>): seq<FolderItem>
  {
    if items == [] then []
    else
      var last := items[|items| - 1];
      SourceImages(items[..|items| - 1]) + (if IsSourceImage(last) then [last] else [])
  }

  /** An entry that is not a source image leaves the selection as it was. */
  lemma SourceImagesSkip(front: seq<FolderItem>, item: FolderItem)
    requires !IsSourceImage(item)
    ensures SourceImages(front + [item]) == SourceImages(front)
  {
    assert (front + [item])[..|front|] == front;
  }

  /**
   * The selection keeps exactly the source images: everything it keeps is a
   * source image of the listing, and every source image of the listing is kept.
   */
  lemma {:induction false} SourceImagesExact(items: seq<FolderItem>)
    ensures |SourceImages(items)| <= |items|
    ensures forall k :: 0 <= k < |SourceImages(items)| ==>
      IsSourceImage(SourceImages(items)[k]) && SourceImages(items)[k] in items
    ensures forall x :: x in items && IsSourceImage(x) ==> x in SourceImages(items)
  {
    if items != [] {
      var front := items[..|items| - 1];
      var last := items[|items| - 1];
      SourceImagesExact(front);
      assert items == front + [last];
    }
  }

  /** The package height after stacking `images`: each adds the padding and its own height. */
  function StackHeight(images: seq<ImageInfo>, padding: nat): nat
  {
    if images == [] then 0
    else StackHeight(images[..|images| - 1], padding) + padding + images[|images| - 1].height
  }

  /** The package width: the widest image, or 0 for none. */
  function MaxWidth(images: seq<ImageInfo>): nat
  {
    if images == [] then 0
    else
      var w := images[|images| - 1].width;
      var m := MaxWidth(images[..|images| - 1]);
      if w > m then w else m
  }

  /** The package width is the width of its widest image: no image is wider, and one is that wide. */
  lemma {:induction false} MaxWidthIsWidest(images: seq<ImageInfo>)
    ensures forall k :: 0 <= k < |images| ==> images[k].width <= MaxWidth(images)
    ensures images == [] ==> MaxWidth(images) == 0
    ensures images != [] ==> exists k :: 0 <= k < |images| && images[k].width == MaxWidth(images)
  {
    if images != [] {
      var front := images[..|images| - 1];
      MaxWidthIsWidest(front);
      assert forall k :: 0 <= k < |front| ==> images[k] == front[k];
      var last := |images| - 1;
      if images[last].width > MaxWidth(front) {
        assert images[last].width == MaxWidth(images);
      } else if front == [] {
        assert images[last].width == 0 == MaxWidth(images);
      } else {
        var k :| 0 <= k < |front| && front[k].width == MaxWidth(front);
        assert images[k].width == MaxWidth(images);
      }
    }
  }

  /** Every image sits at the left edge, one padding below the images before it. */
  ghost predicate Stacked(images: seq<ImageInfo>, padding: nat)
  {
    images != [] ==>
      var front := images[..|images| - 1];
      Stacked(front, padding) &&
      images[|images| - 1].left == 0 && images[|images| - 1].top == padding + StackHeight(front, padding)
  }

  /** The image at position `i` of a stack sits one padding below the images before it. */
  lemma {:induction false} StackedAt(images: seq<ImageInfo>, padding: nat, i: nat)
    requires Stacked(images, padding) && i < |images|
    ensures images[i].left == 0 && images[i].top == padding + StackHeight(images[..i], padding)
    decreases |images|
  {
    var front := images[..|images| - 1];
    if i < |front| {
      StackedAt(front, padding, i);
      assert front[..i] == images[..i];
    }
  }

  /** The height of a stack never shrinks as more images are taken. */
  lemma {:induction false} StackHeightMonotone(images: seq<ImageInfo>, padding: nat, i: nat, j: nat)
    requires i <= j <= |images|
    ensures StackHeight(images[..i], padding) <= StackHeight(images[..j], padding)
    decreases j
  {
    if i < j {
      StackHeightMonotone(images, padding, i, j - 1);
      assert images[..j][..j - 1] == images[..j - 1];
    }
  }

  /** Putting an image one padding below the stack keeps it a stack, one padding and one image higher. */
  lemma StackPush(images: seq<ImageInfo>, padding: nat, info: ImageInfo)
    requires Stacked(images, padding)
    requires info.left == 0 && info.top == padding + StackHeight(images, padding)
    ensures Stacked(images + [info], padding)
    ensures StackHeight(images + [info], padding) == StackHeight(images, padding) + padding + info.height
    ensures MaxWidth(images + [info]) == if info.width > MaxWidth(images) then info.width else MaxWidth(images)
  {
    assert (images + [info])[..|images|] == images;
  }

  /** One rule per image, in image order, for images placed in a package with namespace `path`. */
  ghost predicate RulesMatch(style: seq<string>, images: seq<ImageInfo>, path: string)
  {
    |style| == |images| &&
    (images != [] ==>
      RulesMatch(style[..|style| - 1], images[..|images| - 1], path) &&
      style[|style| - 1] == StyleText(path, images[|images| - 1]))
  }

  lemma RulesPush(style: seq<string>, images: seq<ImageInfo>, path: string, info: ImageInfo, rule: string)
    requires RulesMatch(style, images, path) && rule == StyleText(path, info)
    ensures RulesMatch(style + [rule], images + [info], path)
  {
    assert (style + [rule])[..|style|] == style;
    assert (images + [info])[..|images|] == images;
  }

  /** The rule at position `i` is the rule of the image at position `i`. */
  lemma {:induction false} RuleAt(style: seq<string>, images: seq<ImageInfo>, path: string, i: nat)
    requires RulesMatch(style, images, path) && i < |images|
    ensures |style| == |images| && style[i] == StyleText(path, images[i])
    decreases |images|
  {
    if i < |images| - 1 {
      RuleAt(style[..|style| - 1], images[..|images| - 1], path, i);
    }
  }

  /** Every image lies inside the package, and the last one reaches its bottom edge. */
  lemma ImageInsidePackage(images: seq<ImageInfo>, padding: nat, i: nat)
    requires Stacked(images, padding) && i < |images|
    ensures images[i].left + images[i].width <= MaxWidth(images)
    ensures images[i].top + images[i].height <= StackHeight(images, padding)
    ensures i == |images| - 1 ==> images[i].top + images[i].height == StackHeight(images, padding)
  {
    StackedAt(images, padding, i);
    MaxWidthIsWidest(images);
    var below := StackHeight(images[..i + 1], padding);
    assert images[..i + 1][..i] == images[..i];
    assert images[i].top + images[i].height == below;
    StackHeightMonotone(images, padding, i + 1, |images|);
    assert images[..|images|] == images;
  }

  /** Images never share a row: each starts at least one padding below the bottom of any earlier one. */
  lemma ImagesSeparated(images: seq<ImageInfo>, padding: nat, i: nat, j: nat)
    requires Stacked(images, padding) && i < j < |images|
    ensures images[i].top + images[i].height + padding <= images[j].top
  {
    StackedAt(images, padding, i);
    StackedAt(images, padding, j);
    assert images[..i + 1][..i] == images[..i];
    assert images[i].top + images[i].height == StackHeight(images[..i + 1], padding);
    StackHeightMonotone(images, padding, i + 1, j);
    assert images[j].top == padding + StackHeight(images[..j], padding);
  }

  /** A padding larger by `d` makes the package taller by `d` per image. */
  lemma {:induction false} StackHeightGrowsWithPadding(images: seq<ImageInfo>, p: nat, q: nat)
    requires p <= q
    ensures StackHeight(images, p) + |images| * (q - p) == StackHeight(images, q)
  {
    if images != [] {
      StackHeightGrowsWithPadding(images[..|images| - 1], p, q);
    }
  }

  // ---------------------------------------------------------------------------
  // Style rules.

  /** The decimal digit for `d`. */
  function DigitChar(d: nat): char
    requires d < 10
  {
    ('0' as int + d) as char
  }

  predicate IsDigit(c: char)
  {
    '0' <= c <= '9'
  }

  /** A number as the stylesheet shows it: decimal, without leading zeros. */
  function Decimal(n: nat): (r: string)
    ensures |r| >= 1 && forall k :: 0 <= k < |r| ==> IsDigit(r[k])
    ensures r[0] == '0' ==> n == 0
    decreases n
  {
    if n < 10 then [DigitChar(n)] else Decimal(n / 10) + [DigitChar(n % 10)]
  }

  /** The number a string of decimal digits spells. */
  function DecimalValue(s: string): nat
    requires forall k :: 0 <= k < |s| ==> IsDigit(s[k])
  {
    if s == [] then 0
    else
      assert IsDigit(s[|s| - 1]);
      DecimalValue(s[..|s| - 1]) * 10 + (s[|s| - 1] as int - '0' as int)
  }

  /** Reading back a printed number gives the number. */
  lemma {:induction false} DecimalRoundTrip(n: nat)
    ensures DecimalValue(Decimal(n)) == n
    decreases n
  {
    if n >= 10 {
      DecimalRoundTrip(n / 10);
      var r := Decimal(n);
      assert r[..|r| - 1] == Decimal(n / 10);
    }
  }

  /** The CSS rule recorded for every image, one template line per source line. */
  const StyleTemplate: string :=
    ("." + Token("path") + Token("file") + " {\n") +
    "\tbackground-image: url(\"sprite.png\");\n" +
    "\tbackground-repeat: no-repeat;\n" +
    ("\tbackground-position: " + Token("left") + "px " + Token("top") + "px;\n") +
    ("\twidth: " + Token("width") + "px;\n") +
    ("\theight: " + Token("height") + "px;\n") +
    "}\n\n"

  /** A piece of template text without a '{' that ends in a character closing any tag. */
  lemma PlainPiece(v: string)
    requires '{' !in v && v != [] && EndsClosed(v)
    ensures NoNestedOpen(v) && EndsClosed(v)
  {
    NoNestedOpenPrepend(v, []);
    assert v + [] == v;
  }

  /** Appends the token of `tag` to template text free of nesting. */
  lemma AppendToken(t: string, tag: string)
    requires NoNestedOpen(t) && EndsClosed(t) && IsTagName(tag)
    ensures NoNestedOpen(t + Token(tag)) && EndsClosed(t + Token(tag))
  {
    TokenNoNestedOpen(tag);
    NoNestedOpenAppend(t, Token(tag));
  }

  /** Appends a token and then plain text to template text free of nesting. */
  lemma AppendTokenText(t: string, tag: string, v: string)
    requires NoNestedOpen(t) && EndsClosed(t) && IsTagName(tag)
    requires '{' !in v && v != [] && EndsClosed(v)
    ensures NoNestedOpen(t + Token(tag) + v) && EndsClosed(t + Token(tag) + v)
  {
    AppendToken(t, tag);
    PlainPiece(v);
    NoNestedOpenAppend(t + Token(tag), v);
  }

  /** Seven lines free of nesting, each ending in a closing character, joined. */
  lemma JoinLines(l1: string, l2: string, l3: string, l4: string, l5: string, l6: string, l7: string)
    requires NoNestedOpen(l1) && EndsClosed(l1) && NoNestedOpen(l2) && EndsClosed(l2)
    requires NoNestedOpen(l3) && EndsClosed(l3) && NoNestedOpen(l4) && EndsClosed(l4)
    requires NoNestedOpen(l5) && EndsClosed(l5) && NoNestedOpen(l6) && EndsClosed(l6)
    requires NoNestedOpen(l7)
    ensures NoNestedOpen(l1 + l2 + l3 + l4 + l5 + l6 + l7)
  {
    NoNestedOpenAppend(l1, l2);
    NoNestedOpenAppend(l1 + l2, l3);
    NoNestedOpenAppend(l1 + l2 + l3, l4);
    NoNestedOpenAppend(l1 + l2 + l3 + l4, l5);
    NoNestedOpenAppend(l1 + l2 + l3 + l4 + l5, l6);
    NoNestedOpenAppend(l1 + l2 + l3 + l4 + l5 + l6, l7);
  }

  /** A piece of template text without a '{', ending in a character that closes any tag. */
  predicate Plain(v: string)
  {
    '{' !in v && v != [] && EndsClosed(v)
  }

  lemma HeadShape(dot: string, tp: string, tf: string, open: string)
    requires Plain(dot) && IsTagName(tp) && IsTagName(tf)
    requires NoNestedOpen(open) && EndsClosed(open) && open != []
    ensures NoNestedOpen(dot + Token(tp) + Token(tf) + open)
    ensures EndsClosed(dot + Token(tp) + Token(tf) + open)
  {
    PlainPiece(dot);
    AppendToken(dot, tp);
    AppendToken(dot + Token(tp), tf);
    NoNestedOpenAppend(dot + Token(tp) + Token(tf), open);
  }

  lemma PositionShape(position: string, tl: string, px: string, tt: string, close: string)
    requires Plain(position) && Plain(px) && Plain(close) && IsTagName(tl) && IsTagName(tt)
    ensures NoNestedOpen(position + Token(tl) + px + Token(tt) + close)
    ensures EndsClosed(position + Token(tl) + px + Token(tt) + close)
  {
    PlainPiece(position);
    AppendTokenText(position, tl, px);
    AppendTokenText(position + Token(tl) + px, tt, close);
  }

  lemma SizeShape(lead: string, tag: string, close: string)
    requires Plain(lead) && Plain(close) && IsTagName(tag)
    ensures NoNestedOpen(lead + Token(tag) + close) && EndsClosed(lead + Token(tag) + close)
  {
    PlainPiece(lead);
    AppendTokenText(lead, tag, close);
  }

  // The seven lines of the rule template, each free of nesting and ending in a closing character.

  lemma HeadLine()
    ensures NoNestedOpen("." + Token("path") + Token("file") + " {\n")
    ensures EndsClosed("." + Token("path") + Token("file") + " {\n")
  {
    assert NoNestedOpen(" {\n") && EndsClosed(" {\n");
    HeadShape(".", "path", "file", " {\n");
  }

  lemma PositionLine()
    ensures NoNestedOpen("\tbackground-position: " + Token("left") + "px " + Token("top") + "px;\n")
    ensures EndsClosed("\tbackground-position: " + Token("left") + "px " + Token("top") + "px;\n")
  {
    PositionShape("\tbackground-position: ", "left", "px ", "top", "px;\n");
  }

  lemma WidthLine()
    ensures NoNestedOpen("\twidth: " + Token("width") + "px;\n")
    ensures EndsClosed("\twidth: " + Token("width") + "px;\n")
  {
    SizeShape("\twidth: ", "width", "px;\n");
  }

  lemma HeightLine()
    ensures NoNestedOpen("\theight: " + Token("height") + "px;\n")
    ensures EndsClosed("\theight: " + Token("height") + "px;\n")
  {
    SizeShape("\theight: ", "height", "px;\n");
  }

  lemma ImageLine()
    ensures NoNestedOpen("\tbackground-image: url(\"sprite.png\");\n")
    ensures EndsClosed("\tbackground-image: url(\"sprite.png\");\n")
  {
    PlainPiece("\tbackground-image: url(\"sprite.png\");\n");
  }

  lemma RepeatLine()
    ensures NoNestedOpen("\tbackground-repeat: no-repeat;\n")
    ensures EndsClosed("\tbackground-repeat: no-repeat;\n")
  {
    PlainPiece("\tbackground-repeat: no-repeat;\n");
  }

  lemma EndLine()
    ensures NoNestedOpen("}\n\n")
  {
    PlainPiece("}\n\n");
  }

  /** No '{' of the rule template is nested before a tag, so every tag can be filled in. */
  lemma StyleTemplateNoNestedOpen()
    ensures NoNestedOpen(StyleTemplate)
  {
    HeadLine();
    ImageLine();
    RepeatLine();
    EndLine();
    PositionLine();
    WidthLine();
    HeightLine();
    JoinLines(
      "." + Token("path") + Token("file") + " {\n",
      "\tbackground-image: url(\"sprite.png\");\n",
      "\tbackground-repeat: no-repeat;\n",
      "\tbackground-position: " + Token("left") + "px " + Token("top") + "px;\n",
      "\twidth: " + Token("width") + "px;\n",
      "\theight: " + Token("height") + "px;\n",
      "}\n\n");
  }

  /** The tag values for one image's rule, in the order they are applied. */
  function StyleReplacements(path: string, image: ImageInfo): (r: seq<(string, string)>)
    ensures forall k :: 0 <= k < |r| ==> IsTagName(r[k].0)
  {
    [("path", path), ("file", Sanitize(image.name)),
     ("left", Decimal(image.left)), ("top", Decimal(image.top)),
     ("width", Decimal(image.width)), ("height", Decimal(image.height))]
  }

  /** The CSS rule of one image in a package whose namespace is `path`. */
  function StyleText(path: string, image: ImageInfo): string
  {
    Substitute(StyleTemplate, StyleReplacements(path, image))
  }

  /** Fills in the rule template for one image. */
  method StyleRule(path: string, image: ImageInfo) returns (rule: string)
    ensures rule == StyleText(path, image)
  {
    rule := ReplaceTokens(StyleTemplate, StyleReplacements(path, image));
  }

  /**
   * A rule keeps none of its six tags once filled in, as long as neither the
   * namespace nor the file name brings a '{' of its own.
   */
  lemma StyleTextFillsEveryTag(path: string, image: ImageInfo)
    requires '{' !in path && '{' !in image.name
    ensures !Occurs(StyleText(path, image), Token("path"))
    ensures !Occurs(StyleText(path, image), Token("file"))
    ensures !Occurs(StyleText(path, image), Token("left"))
    ensures !Occurs(StyleText(path, image), Token("top"))
    ensures !Occurs(StyleText(path, image), Token("width"))
    ensures !Occurs(StyleText(path, image), Token("height"))
  {
    var r := StyleReplacements(path, image);
    var name := Sanitize(image.name);
    assert '{' !in name by {
      forall k | 0 <= k < |name| ensures name[k] != '{' {
        assert image.name[k] != '{' by { assert image.name[k] in image.name; }
      }
    }
    forall k | 0 <= k < |r| ensures '{' !in r[k].1 {
      if k >= 2 {
        var d := r[k].1;
        forall j | 0 <= j < |d| ensures d[j] != '{' { assert IsDigit(d[j]); }
      }
    }
    StyleTemplateNoNestedOpen();
    SubstituteLeavesNoToken(StyleTemplate, r);
    assert r[0].0 == "path" && r[1].0 == "file" && r[2].0 == "left";
    assert r[3].0 == "top" && r[4].0 == "width" && r[5].0 == "height";
  }

  /**
   * Every rule a package records is completely filled in, when its namespace
   * and its image names hold no '{'.
   */
  lemma RulesFillEveryTag(style: seq<string>, images: seq<ImageInfo>, path: string, i: nat, tag: string)
    requires RulesMatch(style, images, path) && i < |images|
    requires '{' !in path && forall k :: 0 <= k < |images| ==> '{' !in images[k].name
    requires tag in ["path", "file", "left", "top", "width", "height"]
    ensures |style| == |images| && !Occurs(style[i], Token(tag))
  {
    RuleAt(style, images, path, i);
    StyleTextFillsEveryTag(path, images[i]);
  }

  /** The package built for one directory. */
  class SpritePackage {
    /** The directory the package stands for. */
    const dir: string
    /** The namespace prefix of the package's CSS classes. */
    var path: string
    var width: nat
    var height: nat
    var images: seq<ImageInfo>
    var style: seq<string>

    /**
     * The package is the vertical stack of its images: as wide as the widest,
     * as high as all of them with one padding above each, and one rule per
     * image in image order.
     */
    ghost predicate Valid(padding: nat)
      reads this
    {
      width == MaxWidth(images) &&
      height == StackHeight(images, padding) &&
      Stacked(images, padding) &&
      RulesMatch(style, images, path)
    }

    /** An empty package for `dir` with namespace `path`. */
    constructor (dir: string, path: string)
      ensures this.dir == dir && this.path == path
      ensures width == 0 && height == 0 && images == [] && style == []
      ensures forall padding: nat :: Valid(padding)
    {
      this.dir := dir;
      this.path := path;
      width, height := 0, 0;
      images, style := [], [];
    }

    /**
     * Places an image of size `w` by `h` one padding below the current bottom
     * edge, widens the package to it if needed, and records its CSS rule.
     */
    method AddImage(name: string, w: nat, h: nat, padding: nat)
      requires Valid(padding)
      modifies this
      ensures Valid(padding)
      ensures images == old(images) + [ImageInfo(name, w, h, 0, old(height) + padding)]
      ensures width == if w > old(width) then w else old(width)
      ensures height == old(height) + padding + h
      ensures style == old(style) + [StyleText(path, ImageInfo(name, w, h, 0, old(height) + padding))]
      ensures path == old(path)
    {
      var info := ImageInfo(name, w, h, 0, height + padding);
      StackPush(images, padding, info);
      var rule := StyleRule(path, info);
      RulesPush(style, images, path, info, rule);
      images := images + [info];
      width := if w > width then w else width;
      height := height + padding + h;
      style := style + [rule];
    }
  }

  /** Two 10-wide images of heights 20 and 5, padding 2: tops 2 and 24, package 10 by 29. */
  lemma TwoImageStack()
    ensures Stacked([ImageInfo("a.png", 10, 20, 0, 2), ImageInfo("b.png", 10, 5, 0, 24)], 2)
    ensures StackHeight([ImageInfo("a.png", 10, 20, 0, 2), ImageInfo("b.png", 10, 5, 0, 24)], 2) == 29
  {
    var images := [ImageInfo("a.png", 10, 20, 0, 2), ImageInfo("b.png", 10, 5, 0, 24)];
    assert images[..1] == [images[0]];
    assert images[..1][..0] == [];
  }
}
