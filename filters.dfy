/** The pixel filters of VC/AplicacaoFiltros/run.py and the 3x3 mosaic they
    are laid out in. An image is a two-dimensional array indexed `[x, y]`
    like PIL's pixel access object: `Length0` is the width and `Length1` the
    height. Channels are Python integers; an image PIL hands over after
    `convert('RGB')` has every channel in [0, 255]. */
module Filters {

  /** One pixel `(r, g, b)`. */
  datatype Rgb = Rgb(r: int, g: int, b: int)

  predicate IsByte(c: int)
  {
    0 <= c <= 255
  }

  predicate InRange(p: Rgb)
  {
    IsByte(p.r) && IsByte(p.g) && IsByte(p.b)
  }

  /** Every pixel of an RGB image is three bytes. */
  ghost predicate ValidImage(img: array2<Rgb>)
    reads img
  {
    forall x, y :: 0 <= x < img.Length0 && 0 <= y < img.Length1 ==> InRange(img[x, y])
  }

  function Min3(p: Rgb): int
  {
    if p.r <= p.g && p.r <= p.b then p.r else if p.g <= p.b then p.g else p.b
  }

  function Max3(p: Rgb): int
  {
    if p.r >= p.g && p.r >= p.b then p.r else if p.g >= p.b then p.g else p.b
  }

  // ---------------------------------------------------------------------
  // Per-pixel arithmetic
  // ---------------------------------------------------------------------

  /** `(r + g + b) // 3`; Python's floor division agrees with Dafny's on a
      positive divisor. The mean lies between the darkest and the brightest
      channel. */
  function Media(p: Rgb): (m: int)
    ensures 3 * m <= p.r + p.g + p.b < 3 * m + 3
    ensures Min3(p) <= m <= Max3(p)
  {
    (p.r + p.g + p.b) / 3
  }

  /** The pixel `filtro_cinza` writes: the mean replicated on the three
      channels, so a byte pixel stays a byte pixel. */
  function PixelCinza(p: Rgb): (q: Rgb)
    ensures q.r == q.g == q.b
    ensures InRange(p) ==> InRange(q)
  {
    var m := Media(p);
    Rgb(m, m, m)
  }

  /** A grey pixel is left as it is, so graying twice is graying once. */
  lemma CinzaIdempotent(p: Rgb)
    ensures PixelCinza(PixelCinza(p)) == PixelCinza(p)
    ensures p.r == p.g == p.b ==> PixelCinza(p) == p
  {
  }

  function CanalNegativo(c: int): (n: int)
    ensures IsByte(c) <==> IsByte(n)
  {
    255 - c
  }

  /** The pixel `filtro_negativo` writes. */
  function PixelNegativo(p: Rgb): (q: Rgb)
    ensures InRange(p) <==> InRange(q)
  {
    Rgb(CanalNegativo(p.r), CanalNegativo(p.g), CanalNegativo(p.b))
  }

  /** The negative of the negative is the original pixel. */
  lemma NegativoInvolution(p: Rgb)
    ensures PixelNegativo(PixelNegativo(p)) == p
  {
  }

  /** `min(255, c + 150)`: never darker, never above 255, and saturated
      exactly from 105 on. */
  function CanalBrilho(c: int): (r: int)
    ensures r <= 255
    ensures c <= 255 ==> c <= r
    ensures 0 <= c ==> IsByte(r)
    ensures r == 255 <==> c >= 105
    ensures c < 105 ==> r == c + 150
  {
    if c + 150 <= 255 then c + 150 else 255
  }

  /** Brightening twice saturates every byte. */
  lemma BrilhoTwice(c: int)
    requires IsByte(c)
    ensures CanalBrilho(CanalBrilho(c)) == 255
  {
  }

  function PixelBrilho(p: Rgb): (q: Rgb)
    ensures InRange(p) ==> InRange(q)
  {
    Rgb(CanalBrilho(p.r), CanalBrilho(p.g), CanalBrilho(p.b))
  }

  /** The contrast factor `fator`. */
  const FATOR := 2

  /** `max(0, min(255, 128 + fator * (c - 128)))`: the distance from 128 is
      doubled, then clipped to a byte. */
  function CanalContraste(c: int): (r: int)
    ensures IsByte(r)
    ensures r == 0 <==> c <= 64
    ensures r == 255 <==> c >= 192
    ensures 64 < c < 192 ==> r - 128 == 2 * (c - 128)
  {
    var v := 128 + FATOR * (c - 128);
    if v < 0 then 0 else if v > 255 then 255 else v
  }

  /** Contrast keeps the order of channel values and leaves 128 in place. */
  lemma ContrasteMonotone(a: int, b: int)
    requires a <= b
    ensures CanalContraste(a) <= CanalContraste(b)
    ensures CanalContraste(128) == 128
  {
  }

  function PixelContraste(p: Rgb): (q: Rgb)
    ensures InRange(q)
  {
    Rgb(CanalContraste(p.r), CanalContraste(p.g), CanalContraste(p.b))
  }

  /** `filtro_maluco`: each new channel is computed from the ones already
      replaced, `r' = (g + b) * 1`, `g' = (r' + b) * 2`, `b' = (r' + g') * 3`;
      the original red is never read. */
  function PixelMaluco(p: Rgb): (q: Rgb)
    ensures q == Rgb(p.g + p.b, 2 * p.g + 4 * p.b, 9 * p.g + 15 * p.b)
  {
    var r := (p.g + p.b) * 1;
    var g := (r + p.b) * 2;
    var b := (r + g) * 3;
    Rgb(r, g, b)
  }

  /** The red input channel has no influence on the result. */
  lemma MalucoIgnoresRed(r1: int, r2: int, g: int, b: int)
    ensures PixelMaluco(Rgb(r1, g, b)) == PixelMaluco(Rgb(r2, g, b))
  {
  }

  /** On byte pixels the channels stay non-negative and bounded by 510, 1530
      and 6120, and they leave the byte range already for a blue of 18. */
  lemma MalucoBounds(p: Rgb)
    requires InRange(p)
    ensures 0 <= PixelMaluco(p).r <= 510
    ensures 0 <= PixelMaluco(p).g <= 1530
    ensures 0 <= PixelMaluco(p).b <= 6120
    ensures !InRange(PixelMaluco(Rgb(0, 0, 18)))
  {
  }

  // ---------------------------------------------------------------------
  // The filters over whole images
  // ---------------------------------------------------------------------

  /** `out` has the size of `img` and holds `f` of the pixel at the same
      position. */
  ghost predicate Mapped(img: array2<Rgb>, out: array2<Rgb>, f: Rgb -> Rgb)
    reads img, out
  {
    out.Length0 == img.Length0 && out.Length1 == img.Length1 &&
    forall x, y :: 0 <= x < out.Length0 && 0 <= y < out.Length1 ==> out[x, y] == f(img[x, y])
  }

  /** The nested `for y` / `for x` loop every pointwise filter runs, writing
      into a fresh black image of the same size. */
  method MapPixels(img: array2<Rgb>, f: Rgb -> Rgb) returns (out: array2<Rgb>)
    ensures fresh(out) && Mapped(img, out, f)
  {
    out := new Rgb[img.Length0, img.Length1]((x, y) => Rgb(0, 0, 0));
    for y := 0 to img.Length1
      invariant forall a, b :: 0 <= a < out.Length0 && 0 <= b < y ==> out[a, b] == f(img[a, b])
    {
      for x := 0 to img.Length0
        invariant forall a, b :: 0 <= a < out.Length0 && 0 <= b < y ==> out[a, b] == f(img[a, b])
        invariant forall a :: 0 <= a < x ==> out[a, y] == f(img[a, y])
      {
        out[x, y] := f(img[x, y]);
      }
    }
  }

  /** A pointwise filter whose pixel map keeps bytes keeps a valid image
      valid. */
  lemma MappedValid(img: array2<Rgb>, out: array2<Rgb>, f: Rgb -> Rgb)
    requires Mapped(img, out, f) && ValidImage(img)
    requires forall p :: InRange(p) ==> InRange(f(p))
    ensures ValidImage(out)
  {
  }

  method FiltroCinza(img: array2<Rgb>) returns (out: array2<Rgb>)
    ensures fresh(out) && Mapped(img, out, PixelCinza)
  {
    out := MapPixels(img, PixelCinza);
  }

  method FiltroNegativo(img: array2<Rgb>) returns (out: array2<Rgb>)
    ensures fresh(out) && Mapped(img, out, PixelNegativo)
  {
    out := MapPixels(img, PixelNegativo);
  }

  method FiltroBrilho(img: array2<Rgb>) returns (out: array2<Rgb>)
    ensures fresh(out) && Mapped(img, out, PixelBrilho)
  {
    out := MapPixels(img, PixelBrilho);
  }

  method FiltroContraste(img: array2<Rgb>) returns (out: array2<Rgb>)
    ensures fresh(out) && Mapped(img, out, PixelContraste)
  {
    out := MapPixels(img, PixelContraste);
  }

  method FiltroMaluco(img: array2<Rgb>) returns (out: array2<Rgb>)
    ensures fresh(out) && Mapped(img, out, PixelMaluco)
  {
    out := MapPixels(img, PixelMaluco);
  }

  /** Negating the negative image gives back the pixels of the original. */
  lemma NegativoTwice(img: array2<Rgb>, once: array2<Rgb>, twice: array2<Rgb>)
    requires Mapped(img, once, PixelNegativo) && Mapped(once, twice, PixelNegativo)
    ensures twice.Length0 == img.Length0 && twice.Length1 == img.Length1
    ensures forall x, y :: 0 <= x < img.Length0 && 0 <= y < img.Length1 ==> twice[x, y] == img[x, y]
  {
    forall x, y | 0 <= x < img.Length0 && 0 <= y < img.Length1
      ensures twice[x, y] == img[x, y]
    {
      NegativoInvolution(img[x, y]);
    }
  }

  /** `out` is `img` turned by 180 degrees: the pixel at `(x, y)` comes
      from `(w - 1 - x, h - 1 - y)`. */
  ghost predicate Rotated(img: array2<Rgb>, out: array2<Rgb>)
    reads img, out
  {
    out.Length0 == img.Length0 && out.Length1 == img.Length1 &&
    forall x, y :: 0 <= x < out.Length0 && 0 <= y < out.Length1 ==>
      out[x, y] == img[out.Length0 - 1 - x, out.Length1 - 1 - y]
  }

  /** Whether the loop of `filtro_rotacao_180`, at input row `y` and column
      `x`, has already written the output pixel `(a, b)`. */
  ghost predicate Written(w: int, h: int, y: int, x: int, a: int, b: int)
  {
    h - 1 - b < y || (h - 1 - b == y && w - 1 - a < x)
  }

  /** The state of the loop of `filtro_rotacao_180` before input pixel
      `(x, y)`: the output pixels written so far hold their rotated input
      pixel, and `escritas` holds each of them once and nothing else. */
  ghost predicate RotatedSoFar(img: array2<Rgb>, out: array2<Rgb>, escritas: multiset<(int, int)>, y: int, x: int)
    reads img, out
    requires out.Length0 == img.Length0 && out.Length1 == img.Length1
  {
    var w, h := img.Length0, img.Length1;
    (forall a, b :: 0 <= a < w && 0 <= b < h && Written(w, h, y, x, a, b) ==>
      out[a, b] == img[w - 1 - a, h - 1 - b]) &&
    (forall a, b :: 0 <= a < w && 0 <= b < h ==>
      escritas[(a, b)] == if Written(w, h, y, x, a, b) then 1 else 0) &&
    (forall q :: q in escritas ==> 0 <= q.0 < w && 0 <= q.1 < h)
  }

  /** One pass of the inner `for x` loop of `filtro_rotacao_180`: input row
      `y` is written, mirrored, into output row `h - 1 - y`. */
  method RotateRow(img: array2<Rgb>, out: array2<Rgb>, y: int, ghost escritas: multiset<(int, int)>)
    returns (ghost escritas': multiset<(int, int)>)
    requires out != img && out.Length0 == img.Length0 && out.Length1 == img.Length1
    requires 0 <= y < img.Length1
    requires RotatedSoFar(img, out, escritas, y, 0)
    modifies out
    ensures RotatedSoFar(img, out, escritas', y, img.Length0)
  {
    var w, h := img.Length0, img.Length1;
    escritas' := escritas;
    for x := 0 to w
      invariant RotatedSoFar(img, out, escritas', y, x)
    {
      out[w - 1 - x, h - 1 - y] := img[x, y];
      escritas' := escritas' + multiset{(w - 1 - x, h - 1 - y)};
    }
  }

  /** Finishing row `y` is starting row `y + 1`. */
  lemma NextRow(img: array2<Rgb>, out: array2<Rgb>, escritas: multiset<(int, int)>, y: int)
    requires out.Length0 == img.Length0 && out.Length1 == img.Length1
    requires RotatedSoFar(img, out, escritas, y, img.Length0)
    ensures RotatedSoFar(img, out, escritas, y + 1, 0)
  {
  }

  /** `filtro_rotacao_180`: `px_out[w - 1 - x, h - 1 - y] = px_in[x, y]`.
      The ghost `escritas` records every position written: each output
      position is written exactly once and nothing outside the image is. */
  method FiltroRotacao180(img: array2<Rgb>) returns (out: array2<Rgb>, ghost escritas: multiset<(int, int)>)
    ensures fresh(out) && Rotated(img, out)
    ensures forall a, b :: 0 <= a < out.Length0 && 0 <= b < out.Length1 ==> escritas[(a, b)] == 1
    ensures forall q :: q in escritas ==> 0 <= q.0 < out.Length0 && 0 <= q.1 < out.Length1
  {
    var w, h := img.Length0, img.Length1;
    out := new Rgb[w, h]((x, y) => Rgb(0, 0, 0));
    escritas := multiset{};
    for y := 0 to h
      invariant RotatedSoFar(img, out, escritas, y, 0)
    {
      escritas := RotateRow(img, out, y, escritas);
      NextRow(img, out, escritas, y);
    }
  }

  /** Turning the turned image by 180 degrees again gives back the
      original pixels. */
  lemma RotacaoTwice(img: array2<Rgb>, once: array2<Rgb>, twice: array2<Rgb>)
    requires Rotated(img, once) && Rotated(once, twice)
    ensures twice.Length0 == img.Length0 && twice.Length1 == img.Length1
    ensures forall x, y :: 0 <= x < img.Length0 && 0 <= y < img.Length1 ==> twice[x, y] == img[x, y]
  {
  }

  /** Rotation moves pixels without changing them, so a valid image stays
      valid. */
  lemma RotatedValid(img: array2<Rgb>, out: array2<Rgb>)
    requires Rotated(img, out) && ValidImage(img)
    ensures ValidImage(out)
  {
  }

  // ---------------------------------------------------------------------
  // The mosaic
  // ---------------------------------------------------------------------

  const LINHAS := 3
  const COLUNAS := 3

  /** The transformation of each tile, row by row. */
  const TRANSFORMES: seq<string> :=
    ["normal", "cinza", "negativo", "rotacao", "brilho", "contraste", "maluco", "normal", "normal"]

  datatype Modo = Normal | Cinza | Negativo | Rotacao | Brilho | Contraste | Maluco

  /** The `if`/`elif` chain on `modo`; any other name leaves the image as it
      is. */
  function ModoDe(nome: string): Modo
  {
    if nome == "cinza" then Cinza
    else if nome == "negativo" then Negativo
    else if nome == "rotacao" then Rotacao
    else if nome == "brilho" then Brilho
    else if nome == "contraste" then Contraste
    else if nome == "maluco" then Maluco
    else Normal
  }

  /** The transformation of each tile as the `if`/`elif` chain reads it:
      the original image in the corners of the last row and the top-left
      corner, one filter on every other tile. */
  lemma ModosDoMosaico()
    ensures |TRANSFORMES| == LINHAS * COLUNAS
    ensures forall i :: 0 <= i < |TRANSFORMES| ==>
      ModoDe(TRANSFORMES[i]) == [Normal, Cinza, Negativo, Rotacao, Brilho, Contraste, Maluco, Normal, Normal][i]
  {
  }

  /** No filter is applied to two tiles. */
  lemma EachFilterOnce(i: int, j: int)
    requires 0 <= i < |TRANSFORMES| && 0 <= j < |TRANSFORMES|
    requires ModoDe(TRANSFORMES[i]) == ModoDe(TRANSFORMES[j]) != Normal
    ensures i == j
  {
    ModosDoMosaico();
  }

  /** What the branch for `modo` hands to `paste`: the image itself for
      `normal`, a new image otherwise. */
  ghost predicate Filtered(img: array2<Rgb>, modo: Modo, out: array2<Rgb>)
    reads img, out
  {
    match modo
    case Normal => out == img
    case Cinza => Mapped(img, out, PixelCinza)
    case Negativo => Mapped(img, out, PixelNegativo)
    case Rotacao => Rotated(img, out)
    case Brilho => Mapped(img, out, PixelBrilho)
    case Contraste => Mapped(img, out, PixelContraste)
    case Maluco => Mapped(img, out, PixelMaluco)
  }

  /** Every branch keeps the size of the image. */
  lemma FilteredSize(img: array2<Rgb>, modo: Modo, out: array2<Rgb>)
    requires Filtered(img, modo, out)
    ensures out.Length0 == img.Length0 && out.Length1 == img.Length1
  {
  }

  /** The `if`/`elif` chain of the mosaic loop. */
  method Filtrar(img: array2<Rgb>, modo: Modo) returns (out: array2<Rgb>)
    ensures Filtered(img, modo, out)
    ensures modo != Normal ==> fresh(out)
  {
    match modo
    case Cinza => out := FiltroCinza(img);
    case Negativo => out := FiltroNegativo(img);
    case Rotacao =>
      ghost var escritas;
      out, escritas := FiltroRotacao180(img);
    case Brilho => out := FiltroBrilho(img);
    case Contraste => out := FiltroContraste(img);
    case Maluco => out := FiltroMaluco(img);
    case Normal => out := img;
  }

  /** A tile of the mosaic: where it is pasted, its transformation and the
      image pasted there. */
  datatype Tile = Tile(x: int, y: int, modo: Modo, imagem: array2<Rgb>)

  /** Tile `i` sits in row `i / COLUNAS` and column `i % COLUNAS`, one image
      size apart, and holds its transformation of `img`. */
  ghost predicate TileOk(img: array2<Rgb>, t: Tile, i: int)
    reads img, t.imagem
    requires 0 <= i < |TRANSFORMES|
  {
    t.x == (i % COLUNAS) * img.Length0 && t.y == (i / COLUNAS) * img.Length1 &&
    t.modo == ModoDe(TRANSFORMES[i]) && Filtered(img, t.modo, t.imagem)
  }

  lemma TileIndex(lin: int, col: int)
    requires 0 <= lin && 0 <= col < COLUNAS
    ensures (lin * COLUNAS + col) % COLUNAS == col && (lin * COLUNAS + col) / COLUNAS == lin
  {
  }

  /** The mosaic loop: the canvas is `COLUNAS` images wide and `LINHAS`
      high, and `idx` walks the nine tiles row by row. */
  method Mosaico(img: array2<Rgb>) returns (larguraMosaico: int, alturaMosaico: int, tiles: seq<Tile>)
    ensures larguraMosaico == COLUNAS * img.Length0 && alturaMosaico == LINHAS * img.Length1
    ensures |tiles| == LINHAS * COLUNAS
    ensures forall i :: 0 <= i < |tiles| ==> TileOk(img, tiles[i], i)
  {
    var largura, altura := img.Length0, img.Length1;
    larguraMosaico := largura * COLUNAS;
    alturaMosaico := altura * LINHAS;
    tiles := [];
    var idx := 0;
    for lin := 0 to LINHAS
      invariant idx == lin * COLUNAS == |tiles|
      invariant forall i :: 0 <= i < idx ==> TileOk(img, tiles[i], i)
    {
      for col := 0 to COLUNAS
        invariant idx == lin * COLUNAS + col == |tiles|
        invariant forall i :: 0 <= i < idx ==> TileOk(img, tiles[i], i)
      {
        var x := col * largura;
        var y := lin * altura;
        var modo := ModoDe(TRANSFORMES[idx]);
        var imgFiltrada := Filtrar(img, modo);
        TileIndex(lin, col);
        tiles := tiles + [Tile(x, y, modo, imgFiltrada)];
        idx := idx + 1;
      }
    }
  }

  /** Canvas point `(px, py)` lies in tile `i` of a mosaic of `w` by `h`
      images. */
  ghost predicate Covers(i: int, w: int, h: int, px: int, py: int)
  {
    (i % COLUNAS) * w <= px < (i % COLUNAS) * w + w &&
    (i / COLUNAS) * h <= py < (i / COLUNAS) * h + h
  }

  /** A larger factor gives a product at least one `w` larger. */
  lemma {:induction false} MulGap(a: int, b: int, w: int)
    requires 0 < w
    decreases a - b
    ensures a > b ==> a * w >= b * w + w
  {
    if a > b {
      MulGap(a - 1, b, w);
      assert a * w == (a - 1) * w + w;
    }
  }

  /** Two bands `[c * w, c * w + w)` that share a point are the same band. */
  lemma BandUnique(c1: int, c2: int, w: int, p: int)
    requires 0 < w
    requires c1 * w <= p < c1 * w + w && c2 * w <= p < c2 * w + w
    ensures c1 == c2
  {
    MulGap(c1, c2, w);
    MulGap(c2, c1, w);
  }

  /** The nine tiles cover the `COLUNAS * w` by `LINHAS * h` canvas without
      overlapping: every canvas point lies in exactly one tile. */
  lemma TilesPartition(w: int, h: int, px: int, py: int)
    requires 0 < w && 0 < h
    requires 0 <= px < COLUNAS * w && 0 <= py < LINHAS * h
    ensures exists i :: 0 <= i < LINHAS * COLUNAS && Covers(i, w, h, px, py)
    ensures forall i, j ::
      (0 <= i < LINHAS * COLUNAS && 0 <= j < LINHAS * COLUNAS &&
       Covers(i, w, h, px, py) && Covers(j, w, h, px, py)) ==> i == j
  {
    var col := if px < w then 0 else if px < 2 * w then 1 else 2;
    var lin := if py < h then 0 else if py < 2 * h then 1 else 2;
    TileIndex(lin, col);
    assert Covers(lin * COLUNAS + col, w, h, px, py);
    forall i, j | 0 <= i < LINHAS * COLUNAS && 0 <= j < LINHAS * COLUNAS &&
      Covers(i, w, h, px, py) && Covers(j, w, h, px, py)
      ensures i == j
    {
      BandUnique(i % COLUNAS, j % COLUNAS, w, px);
      BandUnique(i / COLUNAS, j / COLUNAS, h, py);
    }
  }

  /** A point outside the canvas lies in no tile. */
  lemma TilesInsideCanvas(w: int, h: int, i: int, px: int, py: int)
    requires 0 < w && 0 < h && 0 <= i < LINHAS * COLUNAS
    requires Covers(i, w, h, px, py)
    ensures 0 <= px < COLUNAS * w && 0 <= py < LINHAS * h
  {
    assert (i % COLUNAS) * w + w <= COLUNAS * w by {
      assert (COLUNAS - 1 - i % COLUNAS) * w >= 0;
    }
    assert (i / COLUNAS) * h + h <= LINHAS * h by {
      assert (LINHAS - 1 - i / COLUNAS) * h >= 0;
    }
  }
}
