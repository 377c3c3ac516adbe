// The signal processor: a pair of buffers holding the real and the
// imaginary parts of a signal, which load, apply_window, fft and magnitude
// overwrite in place. Samples are binary32 floats in the source and reals
// here. The kernels' square root and FFT are parameters: `root` stands for
// std::sqrt and `kernel` gives the k-th output of the transform.

module Signal {

  /** The FFT kernel: output k (real and imaginary part) of the transform of (re, im). */
  type FftKernel = (seq<real>, seq<real>, bool, int) -> (real, real)

  /** n is a power of two: 1, 2, 4, 8, ... */
  predicate IsPow2(n: nat)
    decreases n
  {
    n == 1 || (n >= 2 && n % 2 == 0 && IsPow2(n / 2))
  }

  /** The bitwise AND of two naturals, taken bit by bit from the lowest. */
  function BitAnd(a: nat, b: nat): (r: nat)
    ensures r <= a && r <= b
  {
    if a == 0 || b == 0 then 0
    else 2 * BitAnd(a / 2, b / 2) + (if a % 2 == 1 && b % 2 == 1 then 1 else 0)
  }

  /** Every bit of m is set in m. */
  lemma {:induction false} BitAndSelf(m: nat)
    ensures BitAnd(m, m) == m
  {
    if m > 0 {
      BitAndSelf(m / 2);
    }
  }

  /** The guard fft uses, (n & (n - 1)) == 0 for n > 0, holds exactly for the powers of two. */
  lemma {:induction false} PowerOfTwoTest(n: nat)
    requires n > 0
    ensures BitAnd(n, n - 1) == 0 <==> IsPow2(n)
    decreases n
  {
    if n == 1 {
    } else if n % 2 == 1 {
      var m := n / 2;
      assert (n - 1) / 2 == m && (n - 1) % 2 == 0;
      BitAndSelf(m);
      assert BitAnd(n, n - 1) == 2 * m;
    } else {
      var m := n / 2;
      assert (n - 1) / 2 == m - 1 && (n - 1) % 2 == 1;
      PowerOfTwoTest(m);
      assert BitAnd(n, n - 1) == 2 * BitAnd(m, m - 1);
    }
  }

  /** n zero samples: what assign and fill write into the imaginary buffer. */
  function Zeros(n: nat): (r: seq<real>)
    ensures |r| == n && forall i | 0 <= i < n :: r[i] == 0.0
  {
    seq(n, _ => 0.0)
  }

  /** The signal multiplied sample by sample by a window of the same length. */
  function Windowed(xs: seq<real>, w: seq<real>): (r: seq<real>)
    requires |w| == |xs|
  {
    seq(|xs|, i requires 0 <= i < |xs| => xs[i] * w[i])
  }

  /** A window of ones leaves the signal as it is. */
  lemma WindowOnes(xs: seq<real>)
    ensures Windowed(xs, seq(|xs|, _ => 1.0)) == xs
  {
  }

  /** Two windows in turn act as the single window that is their product. */
  lemma WindowCompose(xs: seq<real>, w1: seq<real>, w2: seq<real>)
    requires |w1| == |xs| && |w2| == |xs|
    ensures Windowed(Windowed(xs, w1), w2) == Windowed(xs, Windowed(w1, w2))
  {
    forall i | 0 <= i < |xs|
      ensures Windowed(Windowed(xs, w1), w2)[i] == Windowed(xs, Windowed(w1, w2))[i]
    {
      assert (xs[i] * w1[i]) * w2[i] == xs[i] * (w1[i] * w2[i]);
    }
  }

  /** The squared magnitude of the complex number a + bi. */
  function Norm2(a: real, b: real): (r: real)
    ensures r >= 0.0
  {
    a * a + b * b
  }

  /** The magnitude of each complex sample, sqrt(re^2 + im^2), with `root` for the square root. */
  function Magnitudes(re: seq<real>, im: seq<real>, root: real -> real): (r: seq<real>)
    requires |im| == |re|
  {
    seq(|re|, i requires 0 <= i < |re| => root(Norm2(re[i], im[i])))
  }

  /** A purely real signal has its absolute values as magnitudes when `root` is the square root. */
  lemma MagnitudesOfReal(re: seq<real>, root: real -> real)
    requires forall i | 0 <= i < |re| :: root(re[i] * re[i]) == if re[i] < 0.0 then -re[i] else re[i]
    ensures forall i | 0 <= i < |re| :: Magnitudes(re, Zeros(|re|), root)[i] >= 0.0
    ensures forall i | 0 <= i < |re| ::
      Magnitudes(re, Zeros(|re|), root)[i] == re[i] || Magnitudes(re, Zeros(|re|), root)[i] == -re[i]
  {
    forall i | 0 <= i < |re|
      ensures Magnitudes(re, Zeros(|re|), root)[i] == if re[i] < 0.0 then -re[i] else re[i]
    {
      var z := Zeros(|re|);
      assert Norm2(re[i], z[i]) == re[i] * re[i];
    }
  }

  /** Both buffers after the kernel has transformed them in place. */
  function Transform(re: seq<real>, im: seq<real>, inverse: bool, kernel: FftKernel): (r: (seq<real>, seq<real>))
    ensures |r.0| == |re| && |r.1| == |re|
  {
    (seq(|re|, k => kernel(re, im, inverse, k).0), seq(|re|, k => kernel(re, im, inverse, k).1))
  }

  class SignalProcessor {
    var re: seq<real>   // real_
    var im: seq<real>   // imag_

    /** The two buffers always have the same length. */
    predicate Valid()
      reads this
    {
      |re| == |im|
    }

    constructor()
      ensures re == [] && im == [] && Valid()
    {
      re := [];
      im := [];
    }

    /** load: the data becomes the real part, and the imaginary part is as many zeros. */
    method Load(data: seq<real>)
      modifies this
      ensures re == data && im == Zeros(|data|) && Valid()
    {
      re := data;
      im := Zeros(|data|);
    }

    /**
     * apply_window: nothing happens unless the window is as long as the
     * signal; then each real sample is multiplied by its window value, in
     * place and in order, and the imaginary part is left alone.
     */
    method ApplyWindow(window: seq<real>)
      modifies this`re
      ensures re == if |window| == |old(re)| then Windowed(old(re), window) else old(re)
    {
      if |window| != |re| {
        return;
      }
      ghost var input := re;
      var i := 0;
      while i < |re|
        invariant |re| == |input| && 0 <= i <= |re|
        invariant forall j | 0 <= j < i :: re[j] == input[j] * window[j]
        invariant forall j | i <= j < |re| :: re[j] == input[j]
      {
        re := re[i := re[i] * window[i]];
        i := i + 1;
      }
      assert forall j | 0 <= j < |re| :: re[j] == Windowed(input, window)[j];
      assert |re| == |Windowed(input, window)|;
      assert re == Windowed(input, window);
    }

    /**
     * fft: nothing happens when the signal is empty or its length is not a
     * power of two; otherwise both buffers are replaced by the transform.
     */
    method Fft(inverse: bool, kernel: FftKernel)
      requires Valid()
      modifies this
      ensures Valid()
      ensures (re, im) ==
        if IsPow2(|old(re)|) then Transform(old(re), old(im), inverse, kernel)
        else (old(re), old(im))
    {
      if re == [] {
        return;
      }
      var n := |re|;
      PowerOfTwoTest(n);
      if BitAnd(n, n - 1) != 0 {
        return;
      }
      re, im := Transform(re, im, inverse, kernel).0, Transform(re, im, inverse, kernel).1;
    }

    /**
     * magnitude: nothing happens on an empty signal; otherwise each real
     * sample becomes the magnitude of its complex sample, in place and in
     * order, and then the imaginary part is filled with zeros.
     */
    method Magnitude(root: real -> real)
      requires Valid()
      modifies this
      ensures Valid()
      ensures old(re) == [] ==> re == old(re) && im == old(im)
      ensures old(re) != [] ==> re == Magnitudes(old(re), old(im), root) && im == Zeros(|re|)
    {
      if re == [] {
        return;
      }
      ghost var input, inputIm := re, im;
      var i := 0;
      while i < |re|
        invariant im == inputIm
        invariant |re| == |input| == |im| && 0 <= i <= |re|
        invariant forall j | 0 <= j < i :: re[j] == root(Norm2(input[j], im[j]))
        invariant forall j | i <= j < |re| :: re[j] == input[j]
      {
        assert re[i] == input[i];
        re := re[i := root(Norm2(re[i], im[i]))];
        i := i + 1;
      }
      assert forall j | 0 <= j < |re| :: re[j] == Magnitudes(input, inputIm, root)[j];
      assert re == Magnitudes(input, inputIm, root);
      i := 0;
      while i < |im|
        invariant re == Magnitudes(input, inputIm, root)
        invariant |im| == |re| && 0 <= i <= |im|
        invariant forall j | 0 <= j < i :: im[j] == 0.0
      {
        im := im[i := 0.0];
        i := i + 1;
      }
      assert im == Zeros(|re|);
    }

    /** get_output: a copy of the real buffer. */
    method GetOutput() returns (out: seq<real>)
      ensures out == re
    {
      out := re;
    }

    /** size: the number of samples. */
    method Size() returns (n: nat)
      ensures n == |re|
    {
      n := |re|;
    }
  }

  /** A constant signal under a window of halves comes out halved. */
  method WindowExample() returns (out: seq<real>)
    ensures out == [0.5, 0.5, 0.5, 0.5]
  {
    var p := new SignalProcessor();
    p.Load([1.0, 1.0, 1.0, 1.0]);
    p.ApplyWindow([0.5, 0.5, 0.5, 0.5]);
    out := p.GetOutput();
  }

  /**
   * Load, fft and magnitude chained on a constant signal: when the kernel
   * puts the sum 4 in bin 0 and zero elsewhere, and `root` takes 16 to 4
   * and 0 to 0, the output is [4, 0, 0, 0].
   */
  method ChainExample(kernel: FftKernel, root: real -> real) returns (out: seq<real>)
    requires kernel([1.0, 1.0, 1.0, 1.0], [0.0, 0.0, 0.0, 0.0], false, 0) == (4.0, 0.0)
    requires forall k | 1 <= k < 4 :: kernel([1.0, 1.0, 1.0, 1.0], [0.0, 0.0, 0.0, 0.0], false, k) == (0.0, 0.0)
    requires root(16.0) == 4.0 && root(0.0) == 0.0
    ensures out == [4.0, 0.0, 0.0, 0.0]
  {
    var p := new SignalProcessor();
    p.Load([1.0, 1.0, 1.0, 1.0]);
    assert Zeros(4) == [0.0, 0.0, 0.0, 0.0];
    assert IsPow2(4) by {
      assert IsPow2(2);
    }
    ConstantSpectrum(kernel);
    p.Fft(false, kernel);
    ConstantMagnitudes(root);
    p.Magnitude(root);
    out := p.GetOutput();
  }

  lemma ConstantSpectrum(kernel: FftKernel)
    requires kernel([1.0, 1.0, 1.0, 1.0], [0.0, 0.0, 0.0, 0.0], false, 0) == (4.0, 0.0)
    requires forall k | 1 <= k < 4 :: kernel([1.0, 1.0, 1.0, 1.0], [0.0, 0.0, 0.0, 0.0], false, k) == (0.0, 0.0)
    ensures Transform([1.0, 1.0, 1.0, 1.0], [0.0, 0.0, 0.0, 0.0], false, kernel)
      == ([4.0, 0.0, 0.0, 0.0], [0.0, 0.0, 0.0, 0.0])
  {
    var ones, zeros := [1.0, 1.0, 1.0, 1.0], [0.0, 0.0, 0.0, 0.0];
    var t := Transform(ones, zeros, false, kernel);
    forall k | 0 <= k < 4
      ensures t.0[k] == [4.0, 0.0, 0.0, 0.0][k] && t.1[k] == zeros[k]
    {
      assert t.0[k] == kernel(ones, zeros, false, k).0;
      assert t.1[k] == kernel(ones, zeros, false, k).1;
    }
    assert t.0 == [4.0, 0.0, 0.0, 0.0];
    assert t.1 == zeros;
  }

  lemma ConstantMagnitudes(root: real -> real)
    requires root(16.0) == 4.0 && root(0.0) == 0.0
    ensures Magnitudes([4.0, 0.0, 0.0, 0.0], [0.0, 0.0, 0.0, 0.0], root) == [4.0, 0.0, 0.0, 0.0]
  {
    var spectrum, zeros := [4.0, 0.0, 0.0, 0.0], [0.0, 0.0, 0.0, 0.0];
    var m := Magnitudes(spectrum, zeros, root);
    forall k | 0 <= k < 4
      ensures m[k] == spectrum[k]
    {
      assert m[k] == root(Norm2(spectrum[k], zeros[k]));
      assert Norm2(spectrum[k], zeros[k]) == spectrum[k] * spectrum[k];
    }
  }
}
