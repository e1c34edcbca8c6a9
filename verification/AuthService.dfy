/** The Redis commands of `_rate_limit_otp`, `issue` and `verify`, as the service runs them
    when nothing interleaves; each is proved to do what the run models say. */
module AuthService {
  import opened Common
  import opened WindowCounter
  import RateLimit
  import Otp

  datatype Account = Account(id: string, active: bool)

  class AuthService {
    var now: int
    var accounts: map<string, Account>
    var counters: map<RateLimit.Key, Counter>
    var cooldown: map<string, int>
    var codes: map<string, Otp.CodeKey>
    var attempts: map<string, Counter>
    var issued: nat

    constructor (now: int, accounts: map<string, Account>)
      ensures this.now == now && this.accounts == accounts
      ensures counters == map[] && cooldown == map[] && codes == map[] && attempts == map[] && issued == 0
    {
      this.now, this.accounts := now, accounts;
      counters, cooldown, codes, attempts, issued := map[], map[], map[], map[], 0;
    }

    function CodeOf(user: string): Otp.CodeKey
      reads this
    {
      if user in codes then codes[user] else Otp.NoCode
    }

    function AttemptsOf(user: string): Counter
      reads this
    {
      if user in attempts then attempts[user] else NoKey
    }

    /** Five attempts of the user have been counted, and the count has not run out. */
    predicate Exhausted(user: string)
      reads this
    {
      user in attempts && Otp.Exhausted(attempts[user], now)
    }

    predicate Cools(phone: string)
      reads this
    {
      phone in cooldown && now < cooldown[phone]
    }

    /** The count of a key, if it has not run out. */
    function Standing(key: RateLimit.Key): nat
      reads this
    {
      if key in counters && counters[key].Count? && (counters[key].expiry.Some? ==> now < counters[key].expiry.value)
      then counters[key].n else 0
    }

    /** INCR, then EXPIRE if the count is 1. */
    method CountRequest(key: RateLimit.Key) returns (n: nat)
      modifies this`counters
      ensures counters == RateLimit.Counted1(old(counters), key, now)
      ensures n == RateLimit.CounterOf(old(counters), key).Incr(now).n
      // One more than the count alive, in the same window; the first count opens one.
      ensures n == old(Standing(key)) + 1 && counters.Keys == old(counters).Keys + {key}
      ensures counters[key] == Count(n, if n == 1 then Some(now + 3600) else old(counters)[key].expiry)
      ensures forall other | other in old(counters) && other != key :: counters[other] == old(counters)[other]
    {
      var c := RateLimit.CounterOf(counters, key).Incr(now);
      counters := counters[key := c];
      n := c.n;
      if n == 1 {
        counters := counters[key := counters[key].Expire(now, WINDOW)];
      }
    }

    method RateLimitOtp(phone: string, ip: string) returns (r: Outcome<nat>)
      modifies this`counters, this`cooldown
      ensures (RateLimit.Limiter(counters, cooldown), r) ==
              RateLimit.Limit(RateLimit.Limiter(old(counters), old(cooldown)), now, phone, ip)
      ensures r == Ok(60) || r == Refused(429)
      // Granted if and only if a minute has passed and neither count is full; a refusal by the
      // cooldown counts nothing, and every other request counts for its phone and its address.
      ensures r.Ok? <==> !old(Cools(phone)) && old(Standing(RateLimit.ByPhone(phone))) < 5
                         && old(Standing(RateLimit.ByIp(ip))) < 20
      ensures cooldown == if r.Ok? then old(cooldown)[phone := now + 60] else old(cooldown)
      ensures old(Cools(phone)) ==> counters == old(counters)
      ensures !old(Cools(phone)) ==> Standing(RateLimit.ByPhone(phone)) == old(Standing(RateLimit.ByPhone(phone))) + 1
                                     && Standing(RateLimit.ByIp(ip)) == old(Standing(RateLimit.ByIp(ip))) + 1
    {
      if phone in cooldown && now < cooldown[phone] {
        return Refused(429);
      }
      var hourly := CountRequest(RateLimit.ByPhone(phone));
      var ipCount := CountRequest(RateLimit.ByIp(ip));
      if hourly > RateLimit.MAX_PER_HOUR || ipCount > RateLimit.MAX_PER_HOUR * 4 {
        return Refused(429);
      }
      cooldown := cooldown[phone := now + RateLimit.COOLDOWN];
      return Ok(RateLimit.COOLDOWN);
    }

    /** `code` is the random OTP. */
    method Issue(user: string, code: string)
      modifies this`codes, this`attempts, this`issued
      ensures codes == old(codes)[user := Otp.Code(code, old(issued), now + 300)]
      ensures attempts == old(attempts) - {user} && issued == old(issued) + 1
      ensures forall s: Otp.Sys | s.now == now && |s.compared| == old(issued) ::
                var t := Otp.Next(s, Otp.Issue(code)); t.code == CodeOf(user) && t.attempts == AttemptsOf(user)
    {
      codes := codes[user := Otp.Code(code, issued, now + Otp.OTP_TTL)];
      attempts := attempts - {user};
      issued := issued + 1;
    }

    /** The answer is the limiter's whether or not the number belongs to anybody; a code is
        issued only if it does, and was not refused. */
    method RequestOtp(phone: string, ip: string, code: string) returns (r: Outcome<nat>)
      modifies this`counters, this`cooldown, this`codes, this`attempts, this`issued
      ensures (RateLimit.Limiter(counters, cooldown), r) ==
              RateLimit.Limit(RateLimit.Limiter(old(counters), old(cooldown)), now, phone, ip)
      ensures r.Ok? <==> !old(Cools(phone)) && old(Standing(RateLimit.ByPhone(phone))) < 5
                         && old(Standing(RateLimit.ByIp(ip))) < 20
      ensures var user := if phone in accounts && accounts[phone].active then Some(accounts[phone].id) else None;
              if r.Ok? && user.Some? then
                && codes == old(codes)[user.value := Otp.Code(code, old(issued), now + 300)]
                && attempts == old(attempts) - {user.value}
              else codes == old(codes) && attempts == old(attempts)
    {
      r := RateLimitOtp(phone, ip);
      if r.Ok? && phone in accounts && accounts[phone].active {
        Issue(accounts[phone].id, code);
      }
    }

    method Verify(user: string, submitted: string) returns (ok: bool)
      modifies this`codes, this`attempts
      ensures var (code, count, _, matched) := Otp.Verify(old(CodeOf(user)), old(AttemptsOf(user)), now, submitted);
              CodeOf(user) == code && AttemptsOf(user) == count && ok == matched
      ensures codes - {user} == old(codes) - {user} && attempts - {user} == old(attempts) - {user}
      // Yes if and only if the code is alive, is the one submitted, and fewer than five attempts
      // have been counted; then it is consumed.
      ensures ok <==> user in old(codes) && old(codes)[user].Code? && now < old(codes)[user].expiry
                      && submitted == old(codes)[user].code && !old(Exhausted(user))
      ensures ok ==> user !in codes && user !in attempts
      // Otherwise it stays, unless the attempts were used up, and the count is one more.
      ensures !ok ==> CodeOf(user) == (if old(Exhausted(user)) then Otp.NoCode else old(CodeOf(user)))
      ensures !ok ==> user in attempts && attempts[user].Count?
                      && attempts[user].n == Otp.Tries(old(AttemptsOf(user)).Live(now)) + 1
    {
      var c := AttemptsOf(user).Incr(now);
      attempts := attempts[user := c];
      if c.n == 1 {
        attempts := attempts[user := attempts[user].Expire(now, Otp.OTP_TTL)];
      }
      if c.n > Otp.MAX_ATTEMPTS {
        codes := codes - {user};
        return false;
      }
      var stored := CodeOf(user).Get(now);
      if stored == Otp.NoCode {
        return false;
      }
      if stored.code == submitted {
        codes := codes - {user};
        attempts := attempts - {user};
        return true;
      }
      return false;
    }
  }
}
