/** The connection retry loop of src/server.cc. */
module WaitConn {

  datatype Attempt = SocketFailed | ConnectFailed | Connected

  /** Bitwise exclusive or, which is what `^` means in C++. */
  function BitXor(a: nat, b: nat): nat
    decreases a + b
  {
    if a == 0 && b == 0 then 0 else (if a % 2 == b % 2 then 0 else 1) + 2 * BitXor(a / 2, b / 2)
  }

  lemma {:induction false} XorZero(b: nat)
    ensures BitXor(0, b) == b
  {
    if b > 0 { XorZero(b / 2); }
  }

  lemma {:induction false} XorOne(j: nat)
    ensures BitXor(1, j) == if j % 2 == 0 then j + 1 else j - 1
  {
    XorZero(j / 2);
  }

  lemma {:induction false} XorTwoUnfolds(i: nat)
    ensures BitXor(2, i) == i % 2 + 2 * BitXor(1, i / 2)
  {}

  lemma {:induction false} XorTwo(i: nat)
    ensures BitXor(2, i) == if i % 4 < 2 then i + 2 else i - 2
  {
    var j, b, k, c := i / 2, i % 2, i / 4, i / 2 % 2;
    assert i == 2 * j + b && j == 2 * k + c;
    XorTwoUnfolds(i);
    XorOne(j);
  }

  /** Seconds of sleep requested by n failed attempts. */
  function SleepAfter(n: nat): nat {
    if n == 0 then 0 else SleepAfter(n - 1) + BitXor(2, n - 1)
  }

  function Correction(n: nat): nat {
    if n % 4 == 0 then 0 else if n % 4 == 2 then 4 else 2
  }

  lemma {:induction false} TriangleStep(n: nat)
    requires n > 0
    ensures n * (n - 1) / 2 == (n - 1) * (n - 2) / 2 + (n - 1)
  {}

  lemma {:induction false} CorrectionStep(n: nat)
    requires n > 0
    ensures BitXor(2, n - 1) == n - 1 + Correction(n) - Correction(n - 1)
  {
    XorTwo(n - 1);
  }

  function ClosedSleep(n: nat): int {
    n * (n - 1) / 2 + Correction(n)
  }

  lemma {:induction false} SleepSum(n: nat)
    ensures SleepAfter(n) == ClosedSleep(n)
  {
    if n > 0 {
      SleepSum(n - 1);
      TriangleStep(n);
      CorrectionStep(n);
    }
  }

  /** The sum in closed form. */
  lemma {:induction false} SleepClosedForm(n: nat)
    ensures n % 4 == 0 ==> SleepAfter(n) == n * (n - 1) / 2
    ensures n % 4 == 1 || n % 4 == 3 ==> SleepAfter(n) == n * (n - 1) / 2 + 2
    ensures n % 4 == 2 ==> SleepAfter(n) == n * (n - 1) / 2 + 4
  {
    SleepSum(n);
  }

  /** How many of the first n attempts get a socket. */
  function Sockets(outcome: nat -> Attempt, n: nat): nat {
    if n == 0 then 0 else Sockets(outcome, n - 1) + if outcome(n - 1).SocketFailed? then 0 else 1
  }

  /** `targets` are the addresses passed to `connect`, one for each attempt that got a socket.  The loop
      counter is an `int`. */
  method Wait(host: string, maxTries: nat, outcome: nat -> Attempt)
    returns (attempts: nat, connected: bool, slept: nat, targets: seq<string>)
    requires maxTries <= 0x7fff_ffff
    ensures attempts <= maxTries
    ensures forall i | 0 <= i < attempts - 1 :: !outcome(i).Connected?
    ensures connected <==> attempts > 0 && outcome(attempts - 1).Connected?
    ensures !connected ==> attempts == maxTries
    ensures
      var failures := if connected then attempts - 1 else attempts;
      slept == ClosedSleep(failures)
    ensures |targets| == Sockets(outcome, attempts)
    ensures forall t | t in targets :: t == if host == "localhost" then "127.0.0.1" else host
  {
    var addr := host;
    attempts, connected, slept, targets := 0, false, 0, [];
    while attempts < maxTries
      invariant attempts <= maxTries
      invariant forall i | 0 <= i < attempts :: !outcome(i).Connected?
      invariant slept == SleepAfter(attempts) && !connected
      invariant addr == host || (host == "localhost" && addr == "127.0.0.1")
      invariant |targets| == Sockets(outcome, attempts)
      invariant forall t | t in targets :: t == if host == "localhost" then "127.0.0.1" else host
    {
      var i := attempts;
      attempts := attempts + 1;
      if outcome(i).SocketFailed? {
        slept := slept + BitXor(2, i);
        continue;
      }
      if addr == "localhost" {
        addr := "127.0.0.1";
      }
      targets := targets + [addr];
      if outcome(i).ConnectFailed? {
        slept := slept + BitXor(2, i);
        continue;
      }
      connected := true;
      break;
    }
    SleepSum(if connected then attempts - 1 else attempts);
  }
}
